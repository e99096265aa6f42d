/**
 The per-order lock of controller/topup.go, as a step system.

 A caller brackets its work with LockOrder and UnlockOrder. Every action below is one
 access to shared state: a lock, an unlock, one operation on the `orderLocks` map, or one
 change of a reference count. Any number of callers may be in flight and their actions
 interleave freely.
 */
module OrderLock {
  import opened Basics

  type Order = string
  type Caller = nat

  /** The next access a caller makes. */
  datatype Point =
    | Entering    // LockOrder: createLock.Lock()
    | Loading     // orderLocks.Load, under createLock
    | Storing     // the load missed: orderLocks.Store of a new mutex, under createLock
    | Counting    // refCount++, under createLock
    | Opening     // createLock.Unlock()
    | Waiting     // rcm.mu.Lock()
    | Critical    // LockOrder has returned
    | Finding     // UnlockOrder: orderLocks.Load, without createLock
    | Dropping    // rcm.mu.Unlock()
    | Reentering  // createLock.Lock()
    | Uncounting  // refCount--, under createLock
    | Sweeping    // orderLocks.Delete when the count is zero, under createLock
    | Closing     // createLock.Unlock()

  /** A refCountedMutex. The owner only records who locked it: Unlock works for any caller. */
  datatype Mutex = Mutex(owner: Option<Caller>, refCount: int)

  /** What all callers share. `crashed` is set by unlocking a mutex that nobody holds, which
      Go treats as fatal. */
  datatype Shared = Shared(
    createLock: Option<Caller>,
    table: map<Order, nat>,
    heap: seq<Mutex>,
    crashed: bool)

  /** One LockOrder/UnlockOrder pair; `mutex` is the local variable rcm. */
  datatype Call = Call(order: Order, at: Point, mutex: nat)

  datatype State = State(shared: Shared, calls: map<Caller, Call>)

  datatype Action = Begin(caller: Caller, order: Order) | Step(caller: Caller)

  const Initial := State(Shared(None, map[], [], false), map[])

  predicate Ready(m: Shared, c: Call) {
    match c.at
    case Entering => m.createLock.None?
    case Reentering => m.createLock.None?
    case Waiting => c.mutex < |m.heap| && m.heap[c.mutex].owner.None?
    case Counting => c.mutex < |m.heap|
    case Dropping => c.mutex < |m.heap|
    case Uncounting => c.mutex < |m.heap|
    case Sweeping => c.mutex < |m.heap|
    case _ => true
  }

  function Recount(m: Shared, k: nat, delta: int): Shared
    requires k < |m.heap|
  {
    m.(heap := m.heap[k := m.heap[k].(refCount := m.heap[k].refCount + delta)])
  }

  function Reown(m: Shared, k: nat, owner: Option<Caller>): Shared
    requires k < |m.heap|
  {
    m.(heap := m.heap[k := m.heap[k].(owner := owner)])
  }

  /** The access at the call's point: the new shared state, and the call after it, or None
      when UnlockOrder has returned. */
  function Access(m: Shared, i: Caller, c: Call): (r: (Shared, Option<Call>))
    requires Ready(m, c)
  {
    match c.at
    case Entering => (m.(createLock := Some(i)), Some(c.(at := Loading)))
    case Loading =>
      if c.order in m.table then (m, Some(c.(at := Counting, mutex := m.table[c.order])))
      else (m, Some(c.(at := Storing)))
    case Storing =>
      (m.(heap := m.heap + [Mutex(None, 0)], table := m.table[c.order := |m.heap|]),
       Some(c.(at := Counting, mutex := |m.heap|)))
    case Counting => (Recount(m, c.mutex, 1), Some(c.(at := Opening)))
    case Opening =>
      (m.(createLock := None, crashed := m.crashed || m.createLock.None?), Some(c.(at := Waiting)))
    case Waiting => (Reown(m, c.mutex, Some(i)), Some(c.(at := Critical)))
    case Critical => (m, Some(c.(at := Finding)))
    case Finding =>
      if c.order in m.table then (m, Some(c.(at := Dropping, mutex := m.table[c.order])))
      else (m, None)
    case Dropping =>
      (Reown(m, c.mutex, None).(crashed := m.crashed || m.heap[c.mutex].owner.None?),
       Some(c.(at := Reentering)))
    case Reentering => (m.(createLock := Some(i)), Some(c.(at := Uncounting)))
    case Uncounting => (Recount(m, c.mutex, -1), Some(c.(at := Sweeping)))
    case Sweeping =>
      (if m.heap[c.mutex].refCount == 0 then m.(table := m.table - {c.order}) else m,
       Some(c.(at := Closing)))
    case Closing =>
      (m.(createLock := None, crashed := m.crashed || m.createLock.None?), None)
  }

  function After(calls: map<Caller, Call>, i: Caller, c': Option<Call>): map<Caller, Call> {
    if c'.None? then calls - {i} else calls[i := c'.value]
  }

  predicate Enabled(s: State, a: Action) {
    match a
    case Begin(i, _) => i !in s.calls
    case Step(i) => i in s.calls && Ready(s.shared, s.calls[i])
  }

  function Apply(s: State, a: Action): State
    requires Enabled(s, a)
  {
    match a
    case Begin(i, o) => s.(calls := s.calls[i := Call(o, Entering, 0)])
    case Step(i) =>
      var r := Access(s.shared, i, s.calls[i]);
      State(r.0, After(s.calls, i, r.1))
  }

  // ---------------------------------------------------------------- the invariant

  /** createLock is held exactly between these points. */
  predicate InCreate(at: Point) {
    at.Loading? || at.Storing? || at.Counting? || at.Opening?
    || at.Uncounting? || at.Sweeping? || at.Closing?
  }

  /** The reference count includes the caller. */
  predicate Counted(at: Point) {
    at.Opening? || at.Waiting? || at.Critical? || at.Finding? || at.Dropping?
    || at.Reentering? || at.Uncounting?
  }

  /** The order's mutex is held by the caller. */
  predicate Holds(at: Point) {
    at.Critical? || at.Finding? || at.Dropping?
  }

  /** rcm must be the mutex the map holds for the order. */
  predicate Bound(at: Point) {
    Counted(at) || at.Counting? || at.Sweeping?
  }

  ghost function Engaged(calls: map<Caller, Call>, o: Order): set<Caller> {
    set i | i in calls && calls[i].order == o && Counted(calls[i].at)
  }

  /** What one call must agree on with the shared state. */
  ghost predicate CallInv(m: Shared, i: Caller, c: Call) {
    && (InCreate(c.at) <==> m.createLock == Some(i))
    && (Bound(c.at) ==> c.order in m.table && m.table[c.order] == c.mutex < |m.heap|)
    && (c.at.Storing? ==> c.order !in m.table)
    && (Holds(c.at) ==> m.heap[c.mutex].owner == Some(i))
  }

  ghost predicate CountExact(m: Shared, calls: map<Caller, Call>, o: Order)
    requires o in m.table && m.table[o] < |m.heap|
  {
    m.heap[m.table[o]].refCount == |Engaged(calls, o)|
  }

  ghost predicate OwnerHolds(m: Shared, calls: map<Caller, Call>, o: Order)
    requires o in m.table && m.table[o] < |m.heap|
  {
    var owner := m.heap[m.table[o]].owner;
    owner.Some? ==>
      owner.value in calls && calls[owner.value].order == o && Holds(calls[owner.value].at)
  }

  /** What one entry of orderLocks must agree on with the calls in flight. */
  ghost predicate EntryInv(m: Shared, calls: map<Caller, Call>, o: Order)
    requires o in m.table
  {
    && m.table[o] < |m.heap|
    && CountExact(m, calls, o)
    && OwnerHolds(m, calls, o)
    && (Engaged(calls, o) != {} || Handled(m, calls, o))
  }

  /** The holder of createLock is about to count itself in, or to sweep after counting out. */
  ghost predicate Handled(m: Shared, calls: map<Caller, Call>, o: Order) {
    && m.createLock.Some? && m.createLock.value in calls
    && calls[m.createLock.value].order == o
    && (calls[m.createLock.value].at.Counting? || calls[m.createLock.value].at.Sweeping?)
  }

  ghost predicate Injective(table: map<Order, nat>) {
    forall o, p :: o in table && p in table && table[o] == table[p] ==> o == p
  }

  ghost predicate Inv(s: State) {
    && (forall i :: i in s.calls ==> CallInv(s.shared, i, s.calls[i]))
    && (forall o :: o in s.shared.table ==> EntryInv(s.shared, s.calls, o))
    && Injective(s.shared.table)
    && (s.shared.createLock.Some? ==> s.shared.createLock.value in s.calls)
    && !s.shared.crashed
  }

  // ---------------------------------------------------------------- every step keeps it

  /** The stepping call agrees with the shared state afterwards, and nothing crashes. */
  lemma AccessKeepsOwnCall(m: Shared, i: Caller, c: Call)
    requires Ready(m, c) && CallInv(m, i, c) && !m.crashed
    requires c.order in m.table ==> m.table[c.order] < |m.heap|
    ensures var r := Access(m, i, c);
            && !r.0.crashed
            && (r.1.Some? ==> CallInv(r.0, i, r.1.value) && r.1.value.order == c.order)
            && (r.1.None? ==> c.at.Closing? && r.0.createLock.None?)
            && (r.0.createLock.Some? ==> r.0.createLock == m.createLock || r.0.createLock == Some(i))
  {
  }

  /** A call that does not step still agrees with the shared state. */
  lemma AccessKeepsOtherCall(m: Shared, i: Caller, c: Call, j: Caller, d: Call)
    requires Ready(m, c) && CallInv(m, i, c) && CallInv(m, j, d) && i != j
    requires Injective(m.table)
    requires c.at.Sweeping? && m.heap[c.mutex].refCount == 0 && c.order == d.order ==> !Bound(d.at)
    ensures CallInv(Access(m, i, c).0, j, d)
  {
  }

  /** Whether the call is counted in the reference count of order o. */
  predicate CountedFor(c: Call, o: Order) {
    c.order == o && Counted(c.at)
  }

  /** Only counting in and counting out change who is engaged with an order. */
  lemma EngagedAfter(calls: map<Caller, Call>, i: Caller, c': Option<Call>, o: Order)
    ensures Engaged(After(calls, i, c'), o) ==
            if c'.Some? && CountedFor(c'.value, o) then Engaged(calls, o) + {i}
            else Engaged(calls, o) - {i}
  {
  }

  lemma EngagedCountAfter(calls: map<Caller, Call>, i: Caller, c': Option<Call>, o: Order)
    requires i in calls
    ensures var before, after := Engaged(calls, o), Engaged(After(calls, i, c'), o);
            var wasIn, isIn := CountedFor(calls[i], o), c'.Some? && CountedFor(c'.value, o);
            && (wasIn == isIn ==> after == before)
            && (!wasIn && isIn ==> |after| == |before| + 1 && after != {})
            && (wasIn && !isIn ==> |after| == |before| - 1)
  {
    EngagedAfter(calls, i, c', o);
    assert i in Engaged(calls, o) <==> CountedFor(calls[i], o);
  }

  /** What the lemmas on one entry of orderLocks start from. */
  ghost predicate EntryStep(m: Shared, calls: map<Caller, Call>, i: Caller, o: Order) {
    && i in calls && Ready(m, calls[i]) && CallInv(m, i, calls[i])
    && Injective(m.table)
    && (o in m.table ==> EntryInv(m, calls, o))
    && (o !in m.table ==> Engaged(calls, o) == {})
    && (calls[i].order in m.table ==> m.table[calls[i].order] < |m.heap|)
    && o in Access(m, i, calls[i]).0.table
  }

  lemma AccessKeepsCount(m: Shared, calls: map<Caller, Call>, i: Caller, o: Order)
    requires EntryStep(m, calls, i, o)
    ensures var r := Access(m, i, calls[i]);
            r.0.table[o] < |r.0.heap| && CountExact(r.0, After(calls, i, r.1), o)
  {
    EngagedCountAfter(calls, i, Access(m, i, calls[i]).1, o);
  }

  lemma AccessKeepsOwner(m: Shared, calls: map<Caller, Call>, i: Caller, o: Order)
    requires i in calls && Ready(m, calls[i]) && CallInv(m, i, calls[i]) && Injective(m.table)
    requires o in m.table ==> m.table[o] < |m.heap| && OwnerHolds(m, calls, o)
    requires calls[i].order in m.table ==> m.table[calls[i].order] < |m.heap|
    requires o in Access(m, i, calls[i]).0.table
    ensures var r := Access(m, i, calls[i]);
            r.0.table[o] < |r.0.heap| && OwnerHolds(r.0, After(calls, i, r.1), o)
  {
  }

  lemma AccessKeepsUse(m: Shared, calls: map<Caller, Call>, i: Caller, o: Order)
    requires EntryStep(m, calls, i, o)
    ensures var r := Access(m, i, calls[i]);
            Engaged(After(calls, i, r.1), o) != {} || Handled(r.0, After(calls, i, r.1), o)
  {
    EngagedCountAfter(calls, i, Access(m, i, calls[i]).1, o);
  }

  lemma AccessKeepsInjective(m: Shared, i: Caller, c: Call)
    requires Ready(m, c) && Injective(m.table)
    requires forall o :: o in m.table ==> m.table[o] < |m.heap|
    ensures Injective(Access(m, i, c).0.table)
  {
  }

  lemma BeginKeepsInv(s: State, i: Caller, o: Order)
    requires Inv(s) && i !in s.calls
    ensures Inv(Apply(s, Begin(i, o)))
  {
    var t := Apply(s, Begin(i, o));
    forall p | p in t.shared.table ensures EntryInv(t.shared, t.calls, p) {
      assert EntryInv(s.shared, s.calls, p);
      assert Engaged(t.calls, p) == Engaged(s.calls, p);
    }
  }

  /** The calls that do not step, all at once. */
  lemma StepKeepsOthers(s: State, i: Caller)
    requires Inv(s) && Enabled(s, Step(i))
    ensures forall j :: j in s.calls && j != i ==>
              CallInv(Access(s.shared, i, s.calls[i]).0, j, s.calls[j])
  {
    var m, c := s.shared, s.calls[i];
    assert CallInv(m, i, c);
    forall j | j in s.calls && j != i ensures CallInv(Access(m, i, c).0, j, s.calls[j]) {
      if c.at.Sweeping? && m.heap[c.mutex].refCount == 0 && c.order == s.calls[j].order {
        assert EntryInv(m, s.calls, c.order);
        assert j !in Engaged(s.calls, c.order);
      }
      AccessKeepsOtherCall(m, i, c, j, s.calls[j]);
    }
  }

  /** The entries of orderLocks, all at once. */
  lemma StepKeepsEntries(s: State, i: Caller)
    requires Inv(s) && Enabled(s, Step(i))
    ensures var t := Apply(s, Step(i));
            forall o :: o in t.shared.table ==> EntryInv(t.shared, t.calls, o)
  {
    var m, c := s.shared, s.calls[i];
    assert CallInv(m, i, c);
    assert c.order in m.table ==> EntryInv(m, s.calls, c.order);
    forall o | o in Apply(s, Step(i)).shared.table
      ensures EntryInv(Apply(s, Step(i)).shared, Apply(s, Step(i)).calls, o)
    {
      assert o !in m.table ==> Engaged(s.calls, o) == {};
      AccessKeepsCount(m, s.calls, i, o);
      AccessKeepsOwner(m, s.calls, i, o);
      AccessKeepsUse(m, s.calls, i, o);
    }
  }

  lemma StepKeepsInv(s: State, a: Action)
    requires Inv(s) && Enabled(s, a)
    ensures Inv(Apply(s, a))
  {
    match a
    case Begin(i, o) =>
      BeginKeepsInv(s, i, o);
    case Step(i) =>
      assert CallInv(s.shared, i, s.calls[i]);
      assert forall o :: o in s.shared.table ==> EntryInv(s.shared, s.calls, o);
      AccessKeepsOwnCall(s.shared, i, s.calls[i]);
      AccessKeepsInjective(s.shared, i, s.calls[i]);
      StepKeepsOthers(s, i);
      StepKeepsEntries(s, i);
  }

  /** A step leaves the other calls and the caller's order alone, and only the last point of
      UnlockOrder ends the call. */
  lemma StepIsLocal(s: State, i: Caller)
    requires Inv(s) && Enabled(s, Step(i))
    ensures var t := Apply(s, Step(i));
            && (forall j :: j in s.calls && j != i ==> j in t.calls && t.calls[j] == s.calls[j])
            && t.calls.Keys == (if s.calls[i].at.Closing? then s.calls.Keys - {i} else s.calls.Keys)
            && (i in t.calls ==> t.calls[i].order == s.calls[i].order)
  {
    assert CallInv(s.shared, i, s.calls[i]);
  }

  // ---------------------------------------------------------------- whole runs

  ghost predicate Run(actions: seq<Action>)
    decreases |actions|, 0
  {
    actions == [] ||
    (Run(actions[..|actions| - 1]) && Enabled(Final(actions[..|actions| - 1]), actions[|actions| - 1]))
  }

  /** The state a run from the empty table ends in. */
  ghost function Final(actions: seq<Action>): State
    requires Run(actions)
    decreases |actions|, 1
  {
    if actions == [] then Initial
    else Apply(Final(actions[..|actions| - 1]), actions[|actions| - 1])
  }

  lemma {:induction false} RunKeepsInv(actions: seq<Action>)
    requires Run(actions)
    ensures Inv(Final(actions))
  {
    if actions != [] {
      RunKeepsInv(actions[..|actions| - 1]);
      StepKeepsInv(Final(actions[..|actions| - 1]), actions[|actions| - 1]);
    }
  }

  /** In every interleaving at most one caller is between LockOrder and UnlockOrder for an
      order, no unlock ever hits a free mutex, and UnlockOrder finds the mutex its caller locked. */
  lemma MutualExclusion(actions: seq<Action>)
    requires Run(actions)
    ensures var s := Final(actions);
            && !s.shared.crashed
            && (forall i, j ::
                  i in s.calls && j in s.calls && i != j && Holds(s.calls[i].at) && Holds(s.calls[j].at)
                  ==> s.calls[i].order != s.calls[j].order)
            && (forall i :: i in s.calls && Holds(s.calls[i].at) ==>
                  && s.calls[i].order in s.shared.table
                  && s.shared.table[s.calls[i].order] == s.calls[i].mutex < |s.shared.heap|
                  && s.shared.heap[s.calls[i].mutex].owner == Some(i))
  {
    RunKeepsInv(actions);
    var s := Final(actions);
    forall i | i in s.calls ensures CallInv(s.shared, i, s.calls[i]) {}
  }

  /** In every interleaving a mapped mutex counts exactly the callers engaged with its order,
      every engaged caller's mutex is the mapped one, and the entry exists exactly while a
      caller is engaged with the order or is inside createLock counting in or sweeping. */
  lemma CountsAreExact(actions: seq<Action>)
    requires Run(actions)
    ensures var s := Final(actions);
            && (forall o :: o in s.shared.table ==>
                  && s.shared.table[o] < |s.shared.heap|
                  && s.shared.heap[s.shared.table[o]].refCount == |Engaged(s.calls, o)|)
            && (forall i :: i in s.calls && Counted(s.calls[i].at) ==>
                  s.calls[i].order in s.shared.table && s.shared.table[s.calls[i].order] == s.calls[i].mutex)
            && (forall o :: o in s.shared.table <==>
                  Engaged(s.calls, o) != {} || Handled(s.shared, s.calls, o))
            && (s.calls == map[] ==> s.shared.table == map[] && s.shared.createLock == None)
  {
    RunKeepsInv(actions);
    var s := Final(actions);
    forall i | i in s.calls ensures CallInv(s.shared, i, s.calls[i]) {}
    forall o ensures o in s.shared.table <==> Engaged(s.calls, o) != {} || Handled(s.shared, s.calls, o) {
      if o in s.shared.table {
        assert EntryInv(s.shared, s.calls, o);
      } else if i :| i in Engaged(s.calls, o) {
        assert false;
      }
    }
    if s.calls == map[] {
      forall o ensures o !in s.shared.table {
        assert Engaged(s.calls, o) == {};
      }
    }
  }

  lemma SomeoneCanMove(s: State)
    requires Inv(s) && s.calls != map[]
    ensures exists i :: i in s.calls && Enabled(s, Step(i))
  {
    var i :| i in s.calls;
    var k := if s.shared.createLock.Some? then s.shared.createLock.value else i;
    assert CallInv(s.shared, k, s.calls[k]);
    if s.calls[k].at.Waiting? && !Enabled(s, Step(k)) {
      assert EntryInv(s.shared, s.calls, s.calls[k].order);
      var j := s.shared.heap[s.calls[k].mutex].owner.value;
      assert CallInv(s.shared, j, s.calls[j]);
      assert Enabled(s, Step(j));
    } else {
      assert Enabled(s, Step(k));
    }
  }

  /** While any caller is in flight, some caller can move: the two locks never deadlock. */
  lemma NeverStuck(actions: seq<Action>)
    requires Run(actions) && Final(actions).calls != map[]
    ensures exists i :: i in Final(actions).calls && Enabled(Final(actions), Step(i))
  {
    RunKeepsInv(actions);
    SomeoneCanMove(Final(actions));
  }

  // ---------------------------------------------------------------- every call ends

  /** How many accesses a call has before it, at most. */
  function Left(at: Point): nat {
    match at
    case Entering => 13
    case Loading => 12
    case Storing => 11
    case Counting => 10
    case Opening => 9
    case Waiting => 8
    case Critical => 7
    case Finding => 6
    case Dropping => 5
    case Reentering => 4
    case Uncounting => 3
    case Sweeping => 2
    case Closing => 1
  }

  ghost function Total(calls: map<Caller, Call>): nat {
    if calls == map[] then 0
    else
      var i :| i in calls;
      Left(calls[i].at) + Total(calls - {i})
  }

  lemma {:induction false} TotalWithout(calls: map<Caller, Call>, j: Caller)
    requires j in calls
    ensures Total(calls) == Left(calls[j].at) + Total(calls - {j})
    decreases |calls|
  {
    var i :| i in calls && Total(calls) == Left(calls[i].at) + Total(calls - {i});
    if i != j {
      TotalWithout(calls - {i}, j);
      TotalWithout(calls - {j}, i);
      assert calls - {i} - {j} == calls - {j} - {i};
    }
  }

  /** Every step of anyone brings the end of all calls nearer. */
  lemma StepMakesProgress(s: State, i: Caller)
    requires Enabled(s, Step(i))
    ensures Total(Apply(s, Step(i)).calls) < Total(s.calls)
  {
    var calls, c' := s.calls, Access(s.shared, i, s.calls[i]).1;
    TotalWithout(calls, i);
    if c'.Some? {
      TotalWithout(calls[i := c'.value], i);
      assert calls[i := c'.value] - {i} == calls - {i};
    }
  }

  ghost predicate OnlySteps(actions: seq<Action>) {
    forall k :: 0 <= k < |actions| ==> actions[k].Step?
  }

  /** Without new callers a run is finite: from any point on it takes at most as many accesses as
      its callers have before them. */
  lemma {:induction false} RunsAreFinite(before: seq<Action>, steps: seq<Action>)
    requires Run(before) && Run(before + steps) && OnlySteps(steps)
    ensures |steps| + Total(Final(before + steps).calls) <= Total(Final(before).calls)
  {
    if steps == [] {
      assert before + steps == before;
    } else {
      var front, a := steps[..|steps| - 1], steps[|steps| - 1];
      assert (before + steps)[..|before + steps| - 1] == before + front;
      RunsAreFinite(before, front);
      StepMakesProgress(Final(before + front), a.caller);
    }
  }

  /** And a run that cannot go on has served everyone: nobody is in flight, the table is empty
      and createLock is free. */
  lemma StoppedMeansDone(actions: seq<Action>)
    requires Run(actions) && forall i :: i in Final(actions).calls ==> !Enabled(Final(actions), Step(i))
    ensures Final(actions).calls == map[]
    ensures Final(actions).shared.table == map[] && Final(actions).shared.createLock == None
  {
    if Final(actions).calls != map[] {
      NeverStuck(actions);
    }
    CountsAreExact(actions);
  }
}
