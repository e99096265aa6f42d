/**
 Crediting of paid orders: the guarded sections of EpayNotify (controller/topup.go) and of
 sessionAsyncPaymentFailed (controller/topup_stripe.go), run by any number of callers over
 the per-order lock. Each database access is one action and may fail; a failed access has
 no effect. New pending orders may be inserted at any time.
 */
module TopUp {
  import opened Basics
  import OrderLock

  type Order = OrderLock.Order
  type Caller = OrderLock.Caller
  type User = int

  datatype Status = Pending | Success | Failed | Expired
  datatype Provider = Epay | Stripe | OtherProvider

  datatype Row = Row(user: User, amount: int, provider: Provider, payBy: string, status: Status)

  /** The webhook a caller is handling; `payBy` is the payment type the gateway reports. */
  datatype Job = EpaySuccess(payBy: string) | StripeFailure

  /** Progress inside the critical section; `row` is the local topUp, already modified. */
  datatype Stage = Fetching | Writing(row: Row) | Crediting(row: Row) | Done

  datatype Work = Work(job: Job, stage: Stage)

  /** The database, and a log of what happened to the orders this process marked as paid:
      `settled` are the orders moved to success, with the
      payment type the gateway reported, `credits` those whose user was credited, in
      order, and `unpaid` those whose quota write changed nothing. */
  datatype Books = Books(
    rows: map<Order, Row>,
    quota: map<User, int>,
    settled: map<Order, string>,
    credits: seq<Order>,
    unpaid: set<Order>)

  datatype State = State(lock: OrderLock.State, work: map<Caller, Work>, books: Books)

  datatype Action =
    | Begin(caller: Caller, order: Order, job: Job)
    | LockStep(caller: Caller)
    | WorkStep(caller: Caller, ok: bool)
    | Insert(order: Order, row: Row)

  /** The quota an order is worth. */
  function Worth(row: Row, quotaPerUnit: real): int {
    Trunc(row.amount as real * quotaPerUnit)
  }

  function ProviderOf(job: Job): Provider {
    if job.EpaySuccess? then Epay else Stripe
  }

  function Mark(row: Row, job: Job): Row {
    match job
    case EpaySuccess(payBy) => row.(status := Success, payBy := payBy)
    case StripeFailure => row.(status := Failed)
  }

  /** One database access of the critical section. */
  function Perform(unit: real, b: Books, o: Order, w: Work, ok: bool): (Books, Stage) {
    match w.stage
    case Fetching =>
      if ok && o in b.rows && b.rows[o].provider == ProviderOf(w.job) && b.rows[o].status.Pending?
      then (b, Writing(Mark(b.rows[o], w.job)))
      else (b, Done)
    case Writing(row) =>
      if !ok then (b, Done)
      else if w.job.EpaySuccess? then
        (b.(rows := b.rows[o := row], settled := b.settled[o := w.job.payBy]), Crediting(row))
      else
        (b.(rows := b.rows[o := row]), Done)
    case Crediting(row) =>
      if ok && Worth(row, unit) >= 0 && row.user in b.quota then
        (b.(quota := b.quota[row.user := b.quota[row.user] + Worth(row, unit)],
            credits := b.credits + [o]), Done)
      else
        (b.(unpaid := b.unpaid + {o}), Done)
    case Done => (b, Done)
  }

  predicate Enabled(s: State, a: Action) {
    match a
    case Begin(i, o, job) => i !in s.lock.calls && (job.StripeFailure? ==> o != "")
    case LockStep(i) =>
      && OrderLock.Enabled(s.lock, OrderLock.Step(i))
      && i in s.work && (s.lock.calls[i].at.Critical? ==> s.work[i].stage.Done?)
    case WorkStep(i, _) =>
      i in s.lock.calls && i in s.work && s.lock.calls[i].at.Critical? && !s.work[i].stage.Done?
    case Insert(o, row) => o !in s.books.rows && row.status.Pending?
  }

  function Apply(unit: real, s: State, a: Action): State
    requires Enabled(s, a)
  {
    match a
    case Begin(i, o, job) =>
      s.(lock := OrderLock.Apply(s.lock, OrderLock.Begin(i, o)), work := s.work[i := Work(job, Fetching)])
    case LockStep(i) =>
      var lock := OrderLock.Apply(s.lock, OrderLock.Step(i));
      s.(lock := lock, work := if i in lock.calls then s.work else s.work - {i})
    case WorkStep(i, ok) =>
      var r := Perform(unit, s.books, s.lock.calls[i].order, s.work[i], ok);
      s.(books := r.0, work := s.work[i := s.work[i].(stage := r.1)])
    case Insert(o, row) => s.(books := s.books.(rows := s.books.rows[o := row]))
  }

  // ---------------------------------------------------------------- the invariant

  predicate SameDeal(r: Row, q: Row) {
    r.user == q.user && r.amount == q.amount && r.provider == q.provider
  }

  /** What a caller's local copy of its order must agree on with the database. */
  ghost predicate WorkInv(b: Books, c: OrderLock.Call, w: Work) {
    && (w.stage.Writing? || w.stage.Crediting? ==> c.at.Critical? && c.order in b.rows)
    && (w.stage.Writing? ==>
          && b.rows[c.order].status.Pending?
          && b.rows[c.order].provider == ProviderOf(w.job)
          && w.stage.row == Mark(b.rows[c.order], w.job))
    && (w.stage.Crediting? ==>
          && w.stage.row == b.rows[c.order]
          && c.order in b.settled && c.order !in b.credits && c.order !in b.unpaid)
  }

  ghost predicate Distinct(s: seq<Order>) {
    forall i, j :: 0 <= i < j < |s| ==> s[i] != s[j]
  }

  ghost predicate LogInv(b: Books) {
    && Distinct(b.credits)
    && (forall o :: o in b.settled ==>
          && o in b.rows && b.rows[o].status.Success? && b.rows[o].provider.Epay?
          && b.rows[o].payBy == b.settled[o])
    && (forall o :: o in b.credits ==> o in b.settled && o !in b.unpaid)
    && b.unpaid <= b.settled.Keys
  }

  /** Every order marked as paid is credited, was refused, or is about to be credited. */
  ghost predicate NothingForgotten(s: State) {
    forall o :: o in s.books.settled ==>
      o in s.books.credits || o in s.books.unpaid ||
      exists i :: i in s.lock.calls && i in s.work && s.work[i].stage.Crediting? && s.lock.calls[i].order == o
  }

  /** The quota the credited orders of one user add up to. */
  ghost function Earned(unit: real, credits: seq<Order>, rows: map<Order, Row>, u: User): int
    requires forall o :: o in credits ==> o in rows
  {
    if credits == [] then 0
    else
      var o := credits[|credits| - 1];
      Earned(unit, credits[..|credits| - 1], rows, u) + (if rows[o].user == u then Worth(rows[o], unit) else 0)
  }

  ghost predicate QuotaInv(unit: real, opening: map<User, int>, b: Books)
    requires LogInv(b)
  {
    && b.quota.Keys == opening.Keys
    && forall u :: u in opening ==> b.quota[u] == opening[u] + Earned(unit, b.credits, b.rows, u)
  }

  ghost predicate Inv(unit: real, opening: map<User, int>, s: State) {
    && OrderLock.Inv(s.lock)
    && s.work.Keys == s.lock.calls.Keys
    && (forall i :: i in s.lock.calls ==> WorkInv(s.books, s.lock.calls[i], s.work[i]))
    && LogInv(s.books)
    && NothingForgotten(s)
    && QuotaInv(unit, opening, s.books)
  }

  // ---------------------------------------------------------------- every action keeps it

  lemma {:induction false} EarnedDependsOnDeals(unit: real, credits: seq<Order>, rows: map<Order, Row>, rows': map<Order, Row>, u: User)
    requires forall o :: o in credits ==> o in rows && o in rows' && SameDeal(rows[o], rows'[o])
    ensures Earned(unit, credits, rows, u) == Earned(unit, credits, rows', u)
  {
    if credits != [] {
      EarnedDependsOnDeals(unit, credits[..|credits| - 1], rows, rows', u);
    }
  }

  lemma EarnedAppend(unit: real, credits: seq<Order>, o: Order, rows: map<Order, Row>, u: User)
    requires o in rows && forall p :: p in credits ==> p in rows
    ensures Earned(unit, credits + [o], rows, u) ==
            Earned(unit, credits, rows, u) + (if rows[o].user == u then Worth(rows[o], unit) else 0)
  {
    assert (credits + [o])[..|credits|] == credits;
  }

  lemma PerformKeepsLog(unit: real, b: Books, c: OrderLock.Call, w: Work, ok: bool)
    requires c.at.Critical? && WorkInv(b, c, w) && LogInv(b)
    ensures var r := Perform(unit, b, c.order, w, ok);
            LogInv(r.0) && WorkInv(r.0, c, w.(stage := r.1))
  {
  }

  /** One user's quota grows by what that user's credited orders grow by. */
  lemma PerformKeepsUserQuota(unit: real, b: Books, c: OrderLock.Call, w: Work, ok: bool, u: User)
    requires WorkInv(b, c, w) && LogInv(b) && LogInv(Perform(unit, b, c.order, w, ok).0)
    requires u in b.quota
    ensures var b' := Perform(unit, b, c.order, w, ok).0;
            && u in b'.quota
            && b'.quota[u] - Earned(unit, b'.credits, b'.rows, u) == b.quota[u] - Earned(unit, b.credits, b.rows, u)
  {
    var b' := Perform(unit, b, c.order, w, ok).0;
    if w.stage.Crediting? {
      if b'.credits != b.credits {
        EarnedAppend(unit, b.credits, c.order, b.rows, u);
      }
    } else {
      EarnedDependsOnDeals(unit, b.credits, b.rows, b'.rows, u);
    }
  }

  lemma PerformKeepsQuota(unit: real, opening: map<User, int>, b: Books, c: OrderLock.Call, w: Work, ok: bool)
    requires WorkInv(b, c, w) && LogInv(b) && QuotaInv(unit, opening, b)
    requires LogInv(Perform(unit, b, c.order, w, ok).0)
    ensures QuotaInv(unit, opening, Perform(unit, b, c.order, w, ok).0)
  {
    var b' := Perform(unit, b, c.order, w, ok).0;
    assert b'.quota.Keys == b.quota.Keys;
    forall u | u in opening
      ensures b'.quota[u] == opening[u] + Earned(unit, b'.credits, b'.rows, u)
    {
      PerformKeepsUserQuota(unit, b, c, w, ok, u);
    }
  }

  /** A caller kept off the order keeps a current copy of its own order. */
  lemma PerformKeepsOther(unit: real, b: Books, c: OrderLock.Call, w: Work, ok: bool, d: OrderLock.Call, v: Work)
    requires WorkInv(b, c, w) && WorkInv(b, d, v)
    requires d.at.Critical? ==> d.order != c.order
    ensures WorkInv(Perform(unit, b, c.order, w, ok).0, d, v)
  {
  }

  /** The lock keeps the other callers off the order. */
  lemma WorkStepKeepsOthers(unit: real, opening: map<User, int>, s: State, i: Caller, ok: bool, j: Caller)
    requires Inv(unit, opening, s) && Enabled(s, WorkStep(i, ok)) && j in s.lock.calls && j != i
    ensures WorkInv(Apply(unit, s, WorkStep(i, ok)).books, s.lock.calls[j], s.work[j])
  {
    var c, d := s.lock.calls[i], s.lock.calls[j];
    assert OrderLock.CallInv(s.lock.shared, i, c) && OrderLock.CallInv(s.lock.shared, j, d);
    PerformKeepsOther(unit, s.books, c, s.work[i], ok, d, s.work[j]);
  }

  lemma WorkStepForgetsNothing(unit: real, s: State, i: Caller, ok: bool)
    requires NothingForgotten(s) && Enabled(s, WorkStep(i, ok))
    ensures NothingForgotten(Apply(unit, s, WorkStep(i, ok)))
  {
    var c, t := s.lock.calls[i], Apply(unit, s, WorkStep(i, ok));
    forall o | o in t.books.settled
      ensures o in t.books.credits || o in t.books.unpaid ||
              exists k :: k in t.lock.calls && k in t.work && t.work[k].stage.Crediting? && t.lock.calls[k].order == o
    {
      if o == c.order && t.work[i].stage.Crediting? {
        assert i in t.lock.calls;
      } else if o !in s.books.credits && o !in s.books.unpaid {
        var k :| k in s.lock.calls && k in s.work && s.work[k].stage.Crediting? && s.lock.calls[k].order == o;
        assert k != i ==> k in t.work && t.work[k] == s.work[k];
      }
    }
  }

  lemma WorkStepKeepsInv(unit: real, opening: map<User, int>, s: State, i: Caller, ok: bool)
    requires Inv(unit, opening, s) && Enabled(s, WorkStep(i, ok))
    ensures Inv(unit, opening, Apply(unit, s, WorkStep(i, ok)))
  {
    PerformKeepsLog(unit, s.books, s.lock.calls[i], s.work[i], ok);
    PerformKeepsQuota(unit, opening, s.books, s.lock.calls[i], s.work[i], ok);
    WorkStepForgetsNothing(unit, s, i, ok);
    forall j | j in s.lock.calls && j != i {
      WorkStepKeepsOthers(unit, opening, s, i, ok, j);
    }
  }

  lemma LockStepKeepsInv(unit: real, opening: map<User, int>, s: State, i: Caller)
    requires Inv(unit, opening, s) && Enabled(s, LockStep(i))
    ensures Inv(unit, opening, Apply(unit, s, LockStep(i)))
  {
    OrderLock.StepKeepsInv(s.lock, OrderLock.Step(i));
    OrderLock.StepIsLocal(s.lock, i);
    var t := Apply(unit, s, LockStep(i));
    assert WorkInv(s.books, s.lock.calls[i], s.work[i]);
    forall o | o in t.books.settled && o !in t.books.credits && o !in t.books.unpaid
      ensures exists k :: k in t.lock.calls && k in t.work && t.work[k].stage.Crediting? && t.lock.calls[k].order == o
    {
      var k :| k in s.lock.calls && k in s.work && s.work[k].stage.Crediting? && s.lock.calls[k].order == o;
      assert k in t.lock.calls && k in t.work;
    }
  }

  lemma BeginKeepsInv(unit: real, opening: map<User, int>, s: State, a: Action)
    requires Inv(unit, opening, s) && a.Begin? && Enabled(s, a)
    ensures Inv(unit, opening, Apply(unit, s, a))
  {
    OrderLock.StepKeepsInv(s.lock, OrderLock.Begin(a.caller, a.order));
    var t := Apply(unit, s, a);
    forall o | o in t.books.settled && o !in t.books.credits && o !in t.books.unpaid
      ensures exists k :: k in t.lock.calls && k in t.work && t.work[k].stage.Crediting? && t.lock.calls[k].order == o
    {
      var k :| k in s.lock.calls && k in s.work && s.work[k].stage.Crediting? && s.lock.calls[k].order == o;
      assert k in t.lock.calls && k in t.work;
    }
  }

  lemma InsertKeepsInv(unit: real, opening: map<User, int>, s: State, a: Action)
    requires Inv(unit, opening, s) && a.Insert? && Enabled(s, a)
    ensures Inv(unit, opening, Apply(unit, s, a))
  {
    var t := Apply(unit, s, a);
    forall i | i in t.lock.calls ensures WorkInv(t.books, t.lock.calls[i], t.work[i]) {
      assert WorkInv(s.books, s.lock.calls[i], s.work[i]);
    }
    forall u | u in opening
      ensures t.books.quota[u] == opening[u] + Earned(unit, t.books.credits, t.books.rows, u)
    {
      EarnedDependsOnDeals(unit, s.books.credits, s.books.rows, t.books.rows, u);
    }
  }

  lemma ActionKeepsInv(unit: real, opening: map<User, int>, s: State, a: Action)
    requires Inv(unit, opening, s) && Enabled(s, a)
    ensures Inv(unit, opening, Apply(unit, s, a))
  {
    match a
    case Begin(_, _, _) => BeginKeepsInv(unit, opening, s, a);
    case LockStep(i) => LockStepKeepsInv(unit, opening, s, i);
    case WorkStep(i, ok) => WorkStepKeepsInv(unit, opening, s, i, ok);
    case Insert(_, _) => InsertKeepsInv(unit, opening, s, a);
  }

  /** An order that has left pending keeps its status, and no order changes user, amount or
      provider. */
  lemma ActionKeepsTerminal(unit: real, s: State, a: Action, o: Order)
    requires Enabled(s, a) && o in s.books.rows
    requires a.WorkStep? ==> WorkInv(s.books, s.lock.calls[a.caller], s.work[a.caller])
    ensures var t := Apply(unit, s, a);
            && o in t.books.rows && SameDeal(s.books.rows[o], t.books.rows[o])
            && (!s.books.rows[o].status.Pending? ==>
                  t.books.rows[o] == s.books.rows[o] && (o in t.books.settled <==> o in s.books.settled))
  {
  }

  // ---------------------------------------------------------------- whole runs

  function Start(rows: map<Order, Row>, quota: map<User, int>): State {
    State(OrderLock.Initial, map[], Books(rows, quota, map[], [], {}))
  }

  ghost predicate Run(unit: real, s: State, actions: seq<Action>)
    decreases actions
  {
    actions == [] || (Enabled(s, actions[0]) && Run(unit, Apply(unit, s, actions[0]), actions[1..]))
  }

  ghost function Final(unit: real, s: State, actions: seq<Action>): State
    requires Run(unit, s, actions)
    decreases actions
  {
    if actions == [] then s else Final(unit, Apply(unit, s, actions[0]), actions[1..])
  }

  lemma {:induction false} RunKeepsInv(unit: real, opening: map<User, int>, s: State, actions: seq<Action>)
    requires Inv(unit, opening, s) && Run(unit, s, actions)
    ensures Inv(unit, opening, Final(unit, s, actions))
    decreases actions
  {
    if actions != [] {
      ActionKeepsInv(unit, opening, s, actions[0]);
      RunKeepsInv(unit, opening, Apply(unit, s, actions[0]), actions[1..]);
    }
  }

  /** What a user gets when the k-th credited order pays the k-th amount. */
  ghost function Received(amounts: seq<int>, credits: seq<Order>, rows: map<Order, Row>, u: User): int
    requires |amounts| == |credits| && forall o :: o in credits ==> o in rows
  {
    if credits == [] then 0
    else
      var n := |credits| - 1;
      Received(amounts[..n], credits[..n], rows, u) + (if rows[credits[n]].user == u then amounts[n] else 0)
  }

  /** Every credited order has paid the integer part of its amount times the quota per unit to its
      user, and nothing else has changed any quota. */
  ghost predicate PaidOut(unit: real, opening: map<User, int>, b: Books, amounts: seq<int>) {
    && |amounts| == |b.credits|
    && (forall o :: o in b.credits ==> o in b.rows)
    && (forall k :: 0 <= k < |amounts| ==> IsIntegerPart(amounts[k], b.rows[b.credits[k]].amount as real * unit))
    && b.quota.Keys == opening.Keys
    && forall u :: u in opening ==> b.quota[u] == opening[u] + Received(amounts, b.credits, b.rows, u)
  }

  lemma WorthIsIntegerPart(row: Row, unit: real)
    ensures IsIntegerPart(Worth(row, unit), row.amount as real * unit)
  {
  }

  ghost function Worths(unit: real, credits: seq<Order>, rows: map<Order, Row>): (amounts: seq<int>)
    requires forall o :: o in credits ==> o in rows
    ensures |amounts| == |credits|
    ensures forall k :: 0 <= k < |credits| ==> amounts[k] == Worth(rows[credits[k]], unit)
  {
    if credits == [] then []
    else Worths(unit, credits[..|credits| - 1], rows) + [Worth(rows[credits[|credits| - 1]], unit)]
  }

  lemma {:induction false} EarnedIsReceived(unit: real, credits: seq<Order>, rows: map<Order, Row>, u: User)
    requires forall o :: o in credits ==> o in rows
    ensures Earned(unit, credits, rows, u) == Received(Worths(unit, credits, rows), credits, rows, u)
  {
    if credits != [] {
      var n := |credits| - 1;
      EarnedIsReceived(unit, credits[..n], rows, u);
      assert Worths(unit, credits, rows)[..n] == Worths(unit, credits[..n], rows);
    }
  }

  lemma EarningsArePaidOut(unit: real, opening: map<User, int>, b: Books)
    requires LogInv(b) && QuotaInv(unit, opening, b)
    ensures exists amounts: seq<int> :: PaidOut(unit, opening, b, amounts)
  {
    var amounts := Worths(unit, b.credits, b.rows);
    forall k | 0 <= k < |amounts| ensures IsIntegerPart(amounts[k], b.rows[b.credits[k]].amount as real * unit) {
      WorthIsIntegerPart(b.rows[b.credits[k]], unit);
    }
    forall u | u in opening ensures b.quota[u] == opening[u] + Received(amounts, b.credits, b.rows, u) {
      EarnedIsReceived(unit, b.credits, b.rows, u);
    }
    assert PaidOut(unit, opening, b, amounts);
  }

  /** In every interleaving, from any database: no order is credited twice, only orders that
      went from pending to success are credited, and every user's quota has grown by exactly
      what the credited orders of that user are worth. Once no caller is in flight, every
      order this process marked as paid was either credited once or had its quota write refused. */
  lemma CreditedOnce(unit: real, rows: map<Order, Row>, quota: map<User, int>, actions: seq<Action>)
    requires Run(unit, Start(rows, quota), actions)
    ensures var s := Final(unit, Start(rows, quota), actions);
            && Distinct(s.books.credits)
            && (forall o :: o in s.books.credits ==>
                  && o in s.books.rows && s.books.rows[o].status.Success? && s.books.rows[o].provider.Epay?
                  && o in s.books.settled && s.books.rows[o].payBy == s.books.settled[o]
                  && (o in rows ==> rows[o].status.Pending?))
            && s.books.quota.Keys == quota.Keys
            && (exists amounts: seq<int> :: PaidOut(unit, quota, s.books, amounts))
            && (s.lock.calls == map[] ==>
                  forall o :: o in s.books.settled <==> o in s.books.credits || o in s.books.unpaid)
  {
    var s0 := Start(rows, quota);
    assert QuotaInv(unit, quota, s0.books);
    RunKeepsInv(unit, quota, s0, actions);
    EarningsArePaidOut(unit, quota, Final(unit, s0, actions).books);
    forall o | o in Final(unit, s0, actions).books.credits && o in rows ensures rows[o].status.Pending? {
      if !rows[o].status.Pending? {
        TerminalNeverSettles(unit, quota, s0, actions, o);
      }
    }
  }

  lemma {:induction false} TerminalNeverSettles(unit: real, opening: map<User, int>, s: State, actions: seq<Action>, o: Order)
    requires Inv(unit, opening, s) && Run(unit, s, actions)
    requires o in s.books.rows && !s.books.rows[o].status.Pending? && o !in s.books.settled
    ensures o !in Final(unit, s, actions).books.settled
    decreases actions
  {
    if actions != [] {
      var a := actions[0];
      ActionKeepsInv(unit, opening, s, a);
      ActionKeepsTerminal(unit, s, a, o);
      TerminalNeverSettles(unit, opening, Apply(unit, s, a), actions[1..], o);
    }
  }

  /** From any point of a run on, an order that has left pending is never written again. */
  lemma {:induction false} TerminalForever(unit: real, opening: map<User, int>, s: State, actions: seq<Action>, o: Order)
    requires Inv(unit, opening, s) && Run(unit, s, actions)
    requires o in s.books.rows && !s.books.rows[o].status.Pending?
    ensures o in Final(unit, s, actions).books.rows
    ensures Final(unit, s, actions).books.rows[o] == s.books.rows[o]
    decreases actions
  {
    if actions != [] {
      ActionKeepsInv(unit, opening, s, actions[0]);
      ActionKeepsTerminal(unit, s, actions[0], o);
      TerminalForever(unit, opening, Apply(unit, s, actions[0]), actions[1..], o);
    }
  }

  /** In every run, whatever status an order has when it is no longer pending, it keeps. */
  lemma TerminalStatusIsFinal(unit: real, rows: map<Order, Row>, quota: map<User, int>, before: seq<Action>, after: seq<Action>, o: Order)
    requires Run(unit, Start(rows, quota), before)
    requires var mid := Final(unit, Start(rows, quota), before);
             Run(unit, mid, after) && o in mid.books.rows && !mid.books.rows[o].status.Pending?
    ensures var mid := Final(unit, Start(rows, quota), before);
            o in Final(unit, mid, after).books.rows && Final(unit, mid, after).books.rows[o] == mid.books.rows[o]
  {
    assert QuotaInv(unit, quota, Start(rows, quota).books);
    RunKeepsInv(unit, quota, Start(rows, quota), before);
    TerminalForever(unit, quota, Final(unit, Start(rows, quota), before), after, o);
  }
}
