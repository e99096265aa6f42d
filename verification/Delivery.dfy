/**
 What a paying customer is owed: when the database accesses made for an order succeed, an Epay
 success callback for it while it is pending takes effect, and the order is credited, whatever
 happens to other orders (controller/topup.go, on the step system of TopUp).
 */
module Delivery {
  import opened Basics
  import OrderLock
  import opened TopUp

  /** The order can be credited: its user exists and the integer part of its worth is not negative. */
  predicate Creditable(unit: real, b: Books, row: Row) {
    row.user in b.quota && row.amount as real * unit > -1.0
  }

  predicate Payable(unit: real, b: Books, row: Row) {
    row.user in b.quota && Worth(row, unit) >= 0
  }

  lemma CreditableIff(unit: real, b: Books, row: Row)
    ensures Creditable(unit, b, row) <==> Payable(unit, b, row)
  {
    WorthIsIntegerPart(row, unit);
  }

  predicate IsWorth(n: int, row: Row, unit: real) {
    IsIntegerPart(n, row.amount as real * unit)
  }

  /** The credit of a row about to be credited: it is made when the write succeeds, the user is known
      and the row's worth does not truncate to a negative number; it adds that worth to the one
      user's quota. Otherwise no quota changes and the order is recorded as unpaid. */
  lemma CreditIff(unit: real, b: Books, o: Order, w: Work, ok: bool)
    requires w.stage.Crediting?
    ensures var r, row := Perform(unit, b, o, w, ok), w.stage.row;
            && r.1.Done?
            && (ok && Creditable(unit, b, row) ==> exists n: int ::
                  && IsWorth(n, row, unit)
                  && r.0 == b.(quota := b.quota[row.user := b.quota[row.user] + n], credits := b.credits + [o]))
            && (!ok || !Creditable(unit, b, row) ==> r.0 == b.(unpaid := b.unpaid + {o}))
  {
    var row := w.stage.row;
    WorthIsIntegerPart(row, unit);
    CreditableIff(unit, b, row);
    assert IsWorth(Worth(row, unit), row, unit);
  }

  /** The order can be credited, if it is there, and no credit for it has been refused. */
  predicate Clear(unit: real, b: Books, o: Order) {
    (o in b.rows ==> Payable(unit, b, b.rows[o])) && o !in b.unpaid
  }

  /** An action without a fault for the order: an access made for it succeeds, and when it is
      inserted it can be credited. */
  predicate Faultless(unit: real, s: State, a: Action, o: Order) {
    && (a.WorkStep? && a.caller in s.lock.calls && s.lock.calls[a.caller].order == o ==> a.ok)
    && (a.Insert? && a.order == o ==> Payable(unit, s.books, a.row))
  }

  ghost predicate FaultlessRun(unit: real, s: State, actions: seq<Action>, o: Order)
    decreases actions
  {
    actions == [] ||
    (Enabled(s, actions[0]) && Faultless(unit, s, actions[0], o) && FaultlessRun(unit, Apply(unit, s, actions[0]), actions[1..], o))
  }

  lemma {:induction false} FaultlessIsRun(unit: real, s: State, actions: seq<Action>, o: Order)
    requires FaultlessRun(unit, s, actions, o)
    ensures Run(unit, s, actions)
    decreases actions
  {
    if actions != [] {
      FaultlessIsRun(unit, Apply(unit, s, actions[0]), actions[1..], o);
    }
  }

  // ---------------------------------------------------------------- nothing is refused

  lemma PerformKeepsClear(unit: real, b: Books, c: OrderLock.Call, w: Work, ok: bool, o: Order)
    requires WorkInv(b, c, w) && Clear(unit, b, o) && (c.order == o ==> ok)
    ensures Clear(unit, Perform(unit, b, c.order, w, ok).0, o)
  {
  }

  /** Without a fault for the order its credit is not refused, and it stays creditable. */
  lemma NothingRefused(unit: real, s: State, a: Action, o: Order)
    requires Enabled(s, a) && Faultless(unit, s, a, o) && Clear(unit, s.books, o)
    requires a.WorkStep? ==> WorkInv(s.books, s.lock.calls[a.caller], s.work[a.caller])
    ensures Clear(unit, Apply(unit, s, a).books, o)
  {
    if a.WorkStep? {
      PerformKeepsClear(unit, s.books, s.lock.calls[a.caller], s.work[a.caller], a.ok, o);
    }
  }

  // ---------------------------------------------------------------- every callback takes effect

  /** Points after the critical section. */
  predicate Past(at: OrderLock.Point) {
    at.Finding? || at.Dropping? || at.Reentering? || at.Uncounting? || at.Sweeping? || at.Closing?
  }

  /** Nobody leaves the critical section before its work is done. */
  ghost predicate WorkFirst(s: State) {
    forall i :: i in s.lock.calls && i in s.work && Past(s.lock.calls[i].at) ==> s.work[i].stage.Done?
  }

  lemma ActionKeepsWorkFirst(unit: real, opening: map<User, int>, s: State, a: Action)
    requires Inv(unit, opening, s) && WorkFirst(s) && Enabled(s, a)
    ensures WorkFirst(Apply(unit, s, a))
  {
    if a.LockStep? {
      OrderLock.StepIsLocal(s.lock, a.caller);
    }
  }

  /** Caller i handles an event of the order's own provider and has not written the order yet: a
      success callback for an Epay order, a failure event for a Stripe order. */
  predicate OnItsWay(s: State, i: Caller, o: Order) {
    && i in s.lock.calls && i in s.work && o in s.books.rows
    && s.lock.calls[i].order == o && Concerns(s.work[i].job, s.books.rows[o])
    && (s.work[i].stage.Fetching? || s.work[i].stage.Writing?)
  }

  predicate Concerns(job: Job, row: Row) {
    if job.EpaySuccess? then row.provider.Epay? else row.provider.Stripe?
  }

  /** The event has taken effect: an Epay order is marked as paid, a Stripe order is failed. */
  predicate Effective(b: Books, o: Order) {
    && o in b.rows
    && ((b.rows[o].provider.Epay? && o in b.settled) || (b.rows[o].provider.Stripe? && b.rows[o].status.Failed?))
  }

  /** An order that is pending, or on which its event has taken effect. */
  predicate Due(b: Books, o: Order) {
    o in b.rows && (b.rows[o].status.Pending? || Effective(b, o))
  }

  /** The event has taken effect, or one that will see to it is on its way. */
  ghost predicate Answered(s: State, o: Order) {
    Due(s.books, o) && (Effective(s.books, o) || exists i :: OnItsWay(s, i, o))
  }

  lemma ActionKeepsDue(unit: real, s: State, a: Action, o: Order)
    requires Enabled(s, a) && Due(s.books, o)
    requires a.WorkStep? ==> WorkInv(s.books, s.lock.calls[a.caller], s.work[a.caller])
    ensures Due(Apply(unit, s, a).books, o)
    ensures Effective(s.books, o) ==> Effective(Apply(unit, s, a).books, o)
    ensures Apply(unit, s, a).books.rows[o].provider == s.books.rows[o].provider
  {}

  lemma WorkStepAnswers(unit: real, s: State, i: Caller, o: Order)
    requires Enabled(s, WorkStep(i, true)) && OnItsWay(s, i, o) && Due(s.books, o)
    requires WorkInv(s.books, s.lock.calls[i], s.work[i])
    ensures Answered(Apply(unit, s, WorkStep(i, true)), o)
  {
    var t := Apply(unit, s, WorkStep(i, true));
    ActionKeepsDue(unit, s, WorkStep(i, true), o);
    if s.work[i].stage.Fetching? && s.books.rows[o].status.Pending? {
      assert OnItsWay(t, i, o);
    }
  }

  lemma ActionKeepsAnswered(unit: real, opening: map<User, int>, s: State, a: Action, o: Order)
    requires Inv(unit, opening, s) && WorkFirst(s) && Enabled(s, a) && Faultless(unit, s, a, o) && Answered(s, o)
    ensures Answered(Apply(unit, s, a), o)
  {
    if a.WorkStep? {
      assert WorkInv(s.books, s.lock.calls[a.caller], s.work[a.caller]);
    }
    ActionKeepsDue(unit, s, a, o);
    if !Effective(s.books, o) {
      var i :| OnItsWay(s, i, o);
      if a == WorkStep(i, true) {
        WorkStepAnswers(unit, s, i, o);
      } else {
        StaysOnItsWay(unit, opening, s, a, i, o);
      }
    }
  }

  lemma StaysOnItsWay(unit: real, opening: map<User, int>, s: State, a: Action, i: Caller, o: Order)
    requires Inv(unit, opening, s) && WorkFirst(s) && Enabled(s, a) && OnItsWay(s, i, o) && Due(s.books, o)
    requires a.WorkStep? ==> a.caller != i && WorkInv(s.books, s.lock.calls[a.caller], s.work[a.caller])
    ensures OnItsWay(Apply(unit, s, a), i, o)
  {
    ActionKeepsDue(unit, s, a, o);
    if a.LockStep? {
      OrderLock.StepIsLocal(s.lock, a.caller);
    }
  }

  lemma BeginAnswers(unit: real, s: State, i: Caller, o: Order, job: Job)
    requires Enabled(s, Begin(i, o, job))
    requires Due(s.books, o) && Concerns(job, s.books.rows[o])
    ensures Answered(Apply(unit, s, Begin(i, o, job)), o)
  {
    assert OnItsWay(Apply(unit, s, Begin(i, o, job)), i, o);
  }

  // ---------------------------------------------------------------- whole runs

  ghost predicate Sound(unit: real, opening: map<User, int>, s: State, o: Order) {
    Inv(unit, opening, s) && WorkFirst(s) && Clear(unit, s.books, o)
  }

  lemma {:induction false} RunKeepsWorkFirst(unit: real, opening: map<User, int>, s: State, actions: seq<Action>)
    requires Inv(unit, opening, s) && WorkFirst(s) && Run(unit, s, actions)
    ensures Inv(unit, opening, Final(unit, s, actions)) && WorkFirst(Final(unit, s, actions))
    decreases actions
  {
    if actions != [] {
      ActionKeepsInv(unit, opening, s, actions[0]);
      ActionKeepsWorkFirst(unit, opening, s, actions[0]);
      RunKeepsWorkFirst(unit, opening, Apply(unit, s, actions[0]), actions[1..]);
    }
  }

  lemma FaultlessStep(unit: real, opening: map<User, int>, s: State, a: Action, o: Order)
    requires Sound(unit, opening, s, o) && Enabled(s, a) && Faultless(unit, s, a, o)
    ensures Sound(unit, opening, Apply(unit, s, a), o)
  {
    ActionKeepsInv(unit, opening, s, a);
    ActionKeepsWorkFirst(unit, opening, s, a);
    if a.WorkStep? {
      assert WorkInv(s.books, s.lock.calls[a.caller], s.work[a.caller]);
    }
    NothingRefused(unit, s, a, o);
  }

  lemma {:induction false} FaultlessRunIsSound(unit: real, opening: map<User, int>, s: State, actions: seq<Action>, o: Order)
    requires Sound(unit, opening, s, o) && FaultlessRun(unit, s, actions, o)
    ensures Run(unit, s, actions) && Sound(unit, opening, Final(unit, s, actions), o)
    decreases actions
  {
    FaultlessIsRun(unit, s, actions, o);
    if actions != [] {
      FaultlessStep(unit, opening, s, actions[0], o);
      FaultlessRunIsSound(unit, opening, Apply(unit, s, actions[0]), actions[1..], o);
    }
  }

  lemma {:induction false} StaysAnswered(unit: real, opening: map<User, int>, s: State, actions: seq<Action>, o: Order)
    requires Inv(unit, opening, s) && WorkFirst(s) && FaultlessRun(unit, s, actions, o) && Answered(s, o)
    ensures Run(unit, s, actions) && Answered(Final(unit, s, actions), o)
    decreases actions
  {
    FaultlessIsRun(unit, s, actions, o);
    if actions != [] {
      ActionKeepsInv(unit, opening, s, actions[0]);
      ActionKeepsWorkFirst(unit, opening, s, actions[0]);
      ActionKeepsAnswered(unit, opening, s, actions[0], o);
      StaysAnswered(unit, opening, Apply(unit, s, actions[0]), actions[1..], o);
    }
  }

  /** The event for the order is among the actions: for Epay a success callback, for Stripe a
      failure. */
  predicate CalledBack(actions: seq<Action>, o: Order, provider: Provider) {
    exists k | 0 <= k < |actions| :: Calls(actions[k], o, provider)
  }

  predicate Calls(a: Action, o: Order, provider: Provider) {
    a.Begin? && a.order == o && (if a.job.EpaySuccess? then provider.Epay? else provider.Stripe?)
  }

  lemma {:induction false} CallbackIsAnswered(unit: real, opening: map<User, int>, s: State, actions: seq<Action>, o: Order)
    requires Inv(unit, opening, s) && WorkFirst(s) && FaultlessRun(unit, s, actions, o)
    requires Due(s.books, o) && CalledBack(actions, o, s.books.rows[o].provider)
    ensures Run(unit, s, actions) && Answered(Final(unit, s, actions), o)
    decreases actions
  {
    FaultlessIsRun(unit, s, actions, o);
    var a := actions[0];
    var t := Apply(unit, s, a);
    ActionKeepsInv(unit, opening, s, a);
    ActionKeepsWorkFirst(unit, opening, s, a);
    if Calls(a, o, s.books.rows[o].provider) {
      BeginAnswers(unit, s, a.caller, o, a.job);
      StaysAnswered(unit, opening, t, actions[1..], o);
    } else {
      if a.WorkStep? {
        assert WorkInv(s.books, s.lock.calls[a.caller], s.work[a.caller]);
      }
      ActionKeepsDue(unit, s, a, o);
      var k :| 0 <= k < |actions| && Calls(actions[k], o, s.books.rows[o].provider);
      assert actions[1..][k - 1] == actions[k];
      CallbackIsAnswered(unit, opening, t, actions[1..], o);
    }
  }

  lemma {:induction false} DueStays(unit: real, opening: map<User, int>, s: State, actions: seq<Action>, o: Order)
    requires Inv(unit, opening, s) && Run(unit, s, actions) && Due(s.books, o)
    ensures Due(Final(unit, s, actions).books, o)
    decreases actions
  {
    if actions != [] {
      var a := actions[0];
      if a.WorkStep? {
        assert WorkInv(s.books, s.lock.calls[a.caller], s.work[a.caller]);
      }
      ActionKeepsInv(unit, opening, s, a);
      ActionKeepsDue(unit, s, a, o);
      DueStays(unit, opening, Apply(unit, s, a), actions[1..], o);
    }
  }

  /** A run that goes on. */
  lemma {:induction false} RunGoesOn(unit: real, s: State, before: seq<Action>, after: seq<Action>)
    requires Run(unit, s, before) && Run(unit, Final(unit, s, before), after)
    ensures Run(unit, s, before + after)
    ensures Final(unit, s, before + after) == Final(unit, Final(unit, s, before), after)
    decreases before
  {
    if before == [] {
      assert before + after == after;
    } else {
      assert (before + after)[0] == before[0] && (before + after)[1..] == before[1..] + after;
      RunGoesOn(unit, Apply(unit, s, before[0]), before[1..], after);
    }
  }

  /** What is known after any run, with any faults, from the start. */
  lemma RunFromStart(unit: real, rows: map<Order, Row>, quota: map<User, int>, actions: seq<Action>)
    requires Run(unit, Start(rows, quota), actions)
    ensures var s := Final(unit, Start(rows, quota), actions); Inv(unit, quota, s) && WorkFirst(s)
  {
    assert QuotaInv(unit, quota, Start(rows, quota).books);
    RunKeepsWorkFirst(unit, quota, Start(rows, quota), actions);
  }

  /** In every interleaving, with any faults so far, at whatever point a creditable Epay order is
      pending, whether it was there from the start or was inserted on the way: if from then on the
      accesses made for this order succeed and a success callback for it arrives, then once
      nobody is in flight the order has been credited, whatever fails for other orders. */
  lemma PaidOrdersAreCredited(unit: real, rows: map<Order, Row>, quota: map<User, int>, before: seq<Action>, after: seq<Action>, o: Order)
    requires Run(unit, Start(rows, quota), before)
    requires var b := Final(unit, Start(rows, quota), before).books;
      o in b.rows && b.rows[o].provider.Epay? && b.rows[o].status.Pending? && Creditable(unit, b, b.rows[o])
    requires FaultlessRun(unit, Final(unit, Start(rows, quota), before), after, o) && CalledBack(after, o, Epay)
    ensures Run(unit, Start(rows, quota), before + after)
    ensures var s := Final(unit, Start(rows, quota), before + after); s.lock.calls == map[] ==> o in s.books.credits
  {
    var mid := Final(unit, Start(rows, quota), before);
    RunFromStart(unit, rows, quota, before);
    assert o !in mid.books.settled && o !in mid.books.unpaid;
    CreditableIff(unit, mid.books, mid.books.rows[o]);
    CallbackIsAnswered(unit, quota, mid, after, o);
    FaultlessRunIsSound(unit, quota, mid, after, o);
    DealsStay(unit, quota, mid, after, o);
    RunGoesOn(unit, Start(rows, quota), before, after);
    CreditedOnce(unit, rows, quota, before + after);
  }

  /** In every interleaving, with any faults so far, at whatever point a Stripe order is pending: if
      from then on the accesses made for it succeed and a failure event for it arrives, then once
      nobody is in flight the order is failed. */
  lemma FailedPaymentsAreRecorded(unit: real, rows: map<Order, Row>, quota: map<User, int>, before: seq<Action>, after: seq<Action>, o: Order)
    requires Run(unit, Start(rows, quota), before)
    requires var b := Final(unit, Start(rows, quota), before).books;
      o in b.rows && b.rows[o].provider.Stripe? && b.rows[o].status.Pending?
    requires FaultlessRun(unit, Final(unit, Start(rows, quota), before), after, o) && CalledBack(after, o, Stripe)
    ensures Run(unit, Start(rows, quota), before + after)
    ensures var s := Final(unit, Start(rows, quota), before + after);
      s.lock.calls == map[] ==> o in s.books.rows && s.books.rows[o].status.Failed? && o !in s.books.credits
  {
    var mid := Final(unit, Start(rows, quota), before);
    RunFromStart(unit, rows, quota, before);
    CallbackIsAnswered(unit, quota, mid, after, o);
    RunGoesOn(unit, Start(rows, quota), before, after);
    RunFromStart(unit, rows, quota, before + after);
    DealsStay(unit, quota, mid, after, o);
  }

  /** No run changes the user, amount or provider of an order. */
  lemma {:induction false} DealsStay(unit: real, opening: map<User, int>, s: State, actions: seq<Action>, o: Order)
    requires Inv(unit, opening, s) && Run(unit, s, actions) && o in s.books.rows
    ensures o in Final(unit, s, actions).books.rows && SameDeal(s.books.rows[o], Final(unit, s, actions).books.rows[o])
    decreases actions
  {
    if actions != [] {
      var a := actions[0];
      if a.WorkStep? {
        assert WorkInv(s.books, s.lock.calls[a.caller], s.work[a.caller]);
      }
      ActionKeepsInv(unit, opening, s, a);
      ActionKeepsTerminal(unit, s, a, o);
      DealsStay(unit, opening, Apply(unit, s, a), actions[1..], o);
    }
  }

  /** An order without faults is credited exactly when it is marked as paid, once nobody is in
      flight. */
  lemma PaidMeansCredited(unit: real, rows: map<Order, Row>, quota: map<User, int>, actions: seq<Action>, o: Order)
    requires FaultlessRun(unit, Start(rows, quota), actions, o) && Clear(unit, Start(rows, quota).books, o)
    ensures Run(unit, Start(rows, quota), actions)
    ensures var s := Final(unit, Start(rows, quota), actions);
      s.lock.calls == map[] ==> (o in s.books.settled <==> o in s.books.credits)
  {
    assert QuotaInv(unit, quota, Start(rows, quota).books);
    FaultlessRunIsSound(unit, quota, Start(rows, quota), actions, o);
    CreditedOnce(unit, rows, quota, actions);
  }

  // ---------------------------------------------------------------- every run comes to an end

  function StageLeft(stage: Stage): nat {
    match stage
    case Fetching => 3
    case Writing(_) => 2
    case Crediting(_) => 1
    case Done => 0
  }

  ghost function WorkLeft(work: map<Caller, Work>): nat {
    if work == map[] then 0
    else
      var i :| i in work;
      StageLeft(work[i].stage) + WorkLeft(work - {i})
  }

  lemma {:induction false} WorkWithout(work: map<Caller, Work>, j: Caller)
    requires j in work
    ensures WorkLeft(work) == StageLeft(work[j].stage) + WorkLeft(work - {j})
    decreases |work|
  {
    var i :| i in work && WorkLeft(work) == StageLeft(work[i].stage) + WorkLeft(work - {i});
    if i != j {
      WorkWithout(work - {i}, j);
      WorkWithout(work - {j}, i);
      assert work - {i} - {j} == work - {j} - {i};
    }
  }

  /** How many accesses all callers together have before them, at most. */
  ghost function AllLeft(s: State): nat {
    OrderLock.Total(s.lock.calls) + WorkLeft(s.work)
  }

  lemma WorkStepMakesProgress(unit: real, s: State, i: Caller, ok: bool)
    requires Enabled(s, WorkStep(i, ok))
    ensures AllLeft(Apply(unit, s, WorkStep(i, ok))) < AllLeft(s)
  {
    var t := Apply(unit, s, WorkStep(i, ok));
    WorkWithout(s.work, i);
    WorkWithout(t.work, i);
    assert t.work - {i} == s.work - {i};
  }

  lemma LockStepMakesProgress(unit: real, s: State, i: Caller)
    requires Enabled(s, LockStep(i))
    ensures AllLeft(Apply(unit, s, LockStep(i))) < AllLeft(s)
  {
    OrderLock.StepMakesProgress(s.lock, i);
    WorkWithout(s.work, i);
  }

  /** A step of a caller in flight. */
  predicate Proceeds(a: Action) {
    a.LockStep? || a.WorkStep?
  }

  /** From any state on, the callers in flight take at most as many accesses as they have before
      them. */
  lemma {:induction false} RunsAreFinite(unit: real, s: State, actions: seq<Action>)
    requires Run(unit, s, actions) && forall k :: 0 <= k < |actions| ==> Proceeds(actions[k])
    ensures |actions| + AllLeft(Final(unit, s, actions)) <= AllLeft(s)
    decreases actions
  {
    if actions != [] {
      var a := actions[0];
      assert Proceeds(a);
      match a {
        case LockStep(i) => LockStepMakesProgress(unit, s, i);
        case WorkStep(i, ok) => WorkStepMakesProgress(unit, s, i, ok);
      }
      RunsAreFinite(unit, Apply(unit, s, a), actions[1..]);
    }
  }

  /** No caller in flight can move. */
  ghost predicate Stopped(s: State) {
    forall i :: i in s.lock.calls ==> !Enabled(s, LockStep(i)) && !Enabled(s, WorkStep(i, true))
  }

  lemma StoppedMeansDone(unit: real, opening: map<User, int>, s: State)
    requires Inv(unit, opening, s) && Stopped(s)
    ensures s.lock.calls == map[]
  {
    if s.lock.calls != map[] {
      OrderLock.SomeoneCanMove(s.lock);
    }
  }

  /** A run that cannot go on has credited every creditable Epay order that was pending when a
      success callback for it arrived, if the accesses made for it succeeded from then on. */
  lemma StoppedRunHasCredited(unit: real, rows: map<Order, Row>, quota: map<User, int>, before: seq<Action>, after: seq<Action>, o: Order)
    requires Run(unit, Start(rows, quota), before)
    requires var b := Final(unit, Start(rows, quota), before).books;
      o in b.rows && b.rows[o].provider.Epay? && b.rows[o].status.Pending? && Creditable(unit, b, b.rows[o])
    requires FaultlessRun(unit, Final(unit, Start(rows, quota), before), after, o) && CalledBack(after, o, Epay)
    ensures Run(unit, Start(rows, quota), before + after)
    ensures var s := Final(unit, Start(rows, quota), before + after); Stopped(s) ==> o in s.books.credits
  {
    PaidOrdersAreCredited(unit, rows, quota, before, after, o);
    RunFromStart(unit, rows, quota, before + after);
    if Stopped(Final(unit, Start(rows, quota), before + after)) {
      StoppedMeansDone(unit, quota, Final(unit, Start(rows, quota), before + after));
    }
  }

  /** An order inserted as pending Epay order is due, and stays so. */
  lemma InsertedIsDue(unit: real, opening: map<User, int>, s: State, o: Order, row: Row, actions: seq<Action>)
    requires Inv(unit, opening, s) && Enabled(s, Insert(o, row)) && row.provider.Epay?
    requires Run(unit, Apply(unit, s, Insert(o, row)), actions)
    ensures Due(Final(unit, Apply(unit, s, Insert(o, row)), actions).books, o)
  {
    ActionKeepsInv(unit, opening, s, Insert(o, row));
    DueStays(unit, opening, Apply(unit, s, Insert(o, row)), actions, o);
  }
}
