/**
 Billing of video tasks: the status, re-billing and refund part of updateVideoSingleTask
 (controller/task_video.go). What the upstream reports, the configured ratios, the clock and
 the outcome of every database write are parameters; a failed write has no effect. A poll
 works on a copy of the stored task, and task.Update stores the copy.
 */
module VideoBilling {
  import opened Basics

  type User = int

  datatype Status = NotStart | Submitted | Queued | InProgress | Success | Failure | Unrecognised(text: string)

  datatype Task = Task(
    user: User, status: Status, quota: int, progress: string, startTime: int, finishTime: int, failReason: string)

  /** The upstream's answer; an empty status string is None. */
  datatype Report = Report(status: Option<Status>, url: string, reason: string, progress: string, totalTokens: int)

  /** What decides the price per token. `group` is the task's group, or else the user's. */
  datatype Pricing = Pricing(
    modelName: string, hasRatio: bool, modelRatio: real,
    group: string, groupRatio: real, userGroupRatio: Option<real>)

  datatype Poll = Poll(
    task: nat, report: Report, pricing: Pricing, now: int,
    chargeOk: bool, returnOk: bool, updateOk: bool, refundOk: bool)

  /** `taken` records, per task, the net amount moved out of the user's quota for it. */
  datatype World = World(tasks: seq<Task>, taken: seq<int>, balances: map<User, int>)

  ghost predicate Valid(w: World) {
    && |w.taken| == |w.tasks|
    && forall i :: 0 <= i < |w.tasks| ==> w.tasks[i].user in w.balances
  }

  // ---------------------------------------------------------------- one poll

  function Reported(r: Report): Report {
    if r.status.None? then Report(Some(Failure), "", "upstream returned empty status", "", 0) else r
  }

  /** The price by tokens, when the model is billed by ratio. */
  function ActualQuota(r: Report, p: Pricing): Option<int> {
    if r.totalTokens > 0 && p.modelName != "" && p.hasRatio && p.modelRatio > 0.0 && p.group != "" then
      var ratio := if p.userGroupRatio.Some? then p.userGroupRatio.value else p.groupRatio;
      Some(Trunc(r.totalTokens as real * p.modelRatio * ratio))
    else None
  }

  /** What re-billing takes from the user; negative when it gives back. */
  function Rebilled(quota: int, p: Poll): int {
    var actual := ActualQuota(p.report, p.pricing);
    if actual.None? then 0
    else
      var delta := actual.value - quota;
      if (delta > 0 && p.chargeOk) || (delta < 0 && p.returnOk) then delta else 0
  }

  /** What moves out of the user's quota before the task is stored. */
  function Moved(t: Task, p: Poll): int {
    if p.report.status == Some(Success) then Rebilled(t.quota, p) else 0
  }

  predicate Known(s: Status) {
    s.Submitted? || s.Queued? || s.InProgress? || s.Success? || s.Failure?
  }

  /** The task with the reported status, its progress, times and reason. */
  function Marked(t: Task, r: Report, now: int): Task
    requires r.status.Some? && Known(r.status.value)
  {
    var finished := if t.finishTime == 0 then now else t.finishTime;
    var u := match r.status.value
      case Submitted => t.(progress := "10%")
      case Queued => t.(progress := "20%")
      case InProgress => t.(progress := "30%", startTime := if t.startTime == 0 then now else t.startTime)
      case Success =>
        t.(progress := "100%", finishTime := finished,
           failReason := if |r.url| > 5 && r.url[..5] == "data:" then t.failReason else r.url)
      case Failure => t.(progress := "100%", finishTime := finished, failReason := r.reason);
    u.(status := r.status.value,
       progress := if r.progress != "" && !r.status.value.Failure? then r.progress else u.progress)
  }

  /** The task as the poll leaves it in memory. */
  function Advanced(t: Task, p: Poll): Task
    requires Reported(p.report).status.Some? && Known(Reported(p.report).status.value)
  {
    Marked(t, Reported(p.report), p.now).(quota := t.quota + Moved(t, p))
  }

  /** Whether a failed task's quota is due back, and paid back. A negative amount is refused. */
  predicate RefundDue(t: Task, p: Poll) {
    Reported(p.report).status == Some(Failure) && t.quota != 0 && !t.status.Failure?
  }

  function Refunded(t: Task, p: Poll): int {
    if RefundDue(t, p) && p.updateOk && p.refundOk && t.quota > 0 then t.quota else 0
  }

  function Take(w: World, i: nat, amount: int): World
    requires i < |w.tasks| == |w.taken| && w.tasks[i].user in w.balances
  {
    var u := w.tasks[i].user;
    w.(taken := w.taken[i := w.taken[i] + amount], balances := w.balances[u := w.balances[u] - amount])
  }

  function AfterPoll(w: World, p: Poll): World
    requires Valid(w) && p.task < |w.tasks|
  {
    var t, r := w.tasks[p.task], Reported(p.report);
    if r.status.None? || !Known(r.status.value) then w
    else
      var w' := Take(w, p.task, Moved(t, p) - Refunded(t, p));
      if p.updateOk then w'.(tasks := w.tasks[p.task := Advanced(t, p)]) else w'
  }

  class TaskStore {
    var tasks: seq<Task>
    var balances: map<User, int>
    ghost var taken: seq<int>

    ghost predicate Consistent()
      reads this
    {
      Valid(World(tasks, taken, balances))
    }

    constructor (balances: map<User, int>)
      ensures Consistent() && tasks == [] && this.balances == balances
    {
      tasks, taken, this.balances := [], [], balances;
    }

    /** IncreaseUserQuota and DecreaseUserQuota refuse a negative amount. */
    method MoveQuota(i: nat, amount: nat, sign: int, ok: bool) returns (moved: bool)
      requires Consistent() && i < |tasks| && (sign == 1 || sign == -1)
      modifies this`balances, this`taken
      ensures Consistent() && moved == ok
      ensures World(tasks, taken, balances) ==
              Take(old(World(tasks, taken, balances)), i, if ok then sign * amount else 0)
    {
      var delta := sign * amount;
      if ok {
        balances := balances[tasks[i].user := balances[tasks[i].user] - delta];
        taken := taken[i := taken[i] + delta];
      }
      moved := ok;
      assert !ok ==> taken[i := taken[i]] == taken && balances[tasks[i].user := balances[tasks[i].user]] == balances;
    }

    /** Re-billing by tokens: charges or returns the difference; the new quota of the task. */
    method Rebill(p: Poll) returns (quota: int)
      requires Consistent() && p.task < |tasks|
      modifies this`balances, this`taken
      ensures Consistent()
      ensures World(tasks, taken, balances) ==
              Take(old(World(tasks, taken, balances)), p.task, Rebilled(tasks[p.task].quota, p))
      ensures quota == tasks[p.task].quota + Rebilled(tasks[p.task].quota, p)
    {
      quota := tasks[p.task].quota;
      var actual := ActualQuota(p.report, p.pricing);
      if actual.None? {
        var _ := MoveQuota(p.task, 0, 1, false);
        return;
      }
      var quotaDelta := actual.value - quota;
      var moved;
      if quotaDelta > 0 {
        moved := MoveQuota(p.task, quotaDelta, 1, p.chargeOk);
      } else {
        moved := MoveQuota(p.task, -quotaDelta, -1, quotaDelta < 0 && p.returnOk);
      }
      if moved {
        quota := actual.value;
      }
    }

    /** The assignments of the status switch, without the billing. */
    static method Mark(t: Task, r: Report, now: int) returns (task: Task)
      requires r.status.Some? && Known(r.status.value)
      ensures task == Marked(t, r, now)
    {
      task := t.(status := r.status.value);
      var progress := r.progress;
      match r.status.value {
        case Submitted => task := task.(progress := "10%");
        case Queued => task := task.(progress := "20%");
        case InProgress =>
          task := task.(progress := "30%");
          if task.startTime == 0 {
            task := task.(startTime := now);
          }
        case Success =>
          task := task.(progress := "100%");
          if task.finishTime == 0 {
            task := task.(finishTime := now);
          }
          if !(|r.url| > 5 && r.url[..5] == "data:") {
            task := task.(failReason := r.url);
          }
        case Failure =>
          task := task.(progress := "100%");
          if task.finishTime == 0 {
            task := task.(finishTime := now);
          }
          task := task.(failReason := r.reason);
          progress := "100%";
      }
      if progress != "" {
        task := task.(progress := progress);
      }
    }

    method UpdateVideoSingleTask(p: Poll) returns (ok: bool)
      requires Consistent() && p.task < |tasks|
      modifies this
      ensures Consistent()
      ensures World(tasks, taken, balances) == AfterPoll(old(World(tasks, taken, balances)), p)
      ensures ok <==> Known(Reported(p.report).status.value)
    {
      ghost var before := World(tasks, taken, balances);
      var report := p.report;
      if report.status.None? {
        report := Report(Some(Failure), "", "upstream returned empty status", "", 0);
      }
      if !Known(report.status.value) {
        return false;
      }
      var shouldRefund := false;
      var quota := tasks[p.task].quota;
      var preStatus := tasks[p.task].status;
      var task := Mark(tasks[p.task], report, p.now);
      TakeNothing(before, p.task);
      if report.status.value.Success? {
        var newQuota := Rebill(p);
        task := task.(quota := newQuota);
      } else if report.status.value.Failure? && quota != 0 && !preStatus.Failure? {
        shouldRefund := true;
      }
      assert task == Advanced(before.tasks[p.task], p);
      assert World(tasks, taken, balances) == Take(before, p.task, Moved(before.tasks[p.task], p));
      if p.updateOk {
        tasks := tasks[p.task := task];
      } else {
        shouldRefund := false;
      }
      if shouldRefund && quota >= 0 {
        var _ := MoveQuota(p.task, quota, -1, p.refundOk);
      }
      ok := true;
    }
  }

  /** Taking nothing changes nothing. */
  lemma TakeNothing(w: World, i: nat)
    requires i < |w.tasks| == |w.taken| && w.tasks[i].user in w.balances
    ensures Take(w, i, 0) == w
  {
    assert w.taken[i := w.taken[i]] == w.taken;
    assert w.balances[w.tasks[i].user := w.balances[w.tasks[i].user]] == w.balances;
  }

  // ---------------------------------------------------------------- the ledger

  /** What a user should have paid for a task. */
  function Owed(t: Task): int {
    if t.status.Failure? then 0 else t.quota
  }

  ghost predicate Settled(w: World) {
    Valid(w) && forall i :: 0 <= i < |w.tasks| ==> w.taken[i] == Owed(w.tasks[i])
  }

  /** When a poll leaves a settled task settled: the status is unknown; or storing the task
      failed before any money moved; or a due refund is paid; or a task that has not failed is
      stored (or a failed one that never cost anything). */
  predicate Safe(t: Task, p: Poll) {
    var r := Reported(p.report);
    || r.status.None? || !Known(r.status.value)
    || (!p.updateOk && Moved(t, p) == 0)
    || (p.updateOk && r.status.value.Failure? && (RefundDue(t, p) ==> p.refundOk && t.quota > 0))
    || (p.updateOk && !r.status.value.Failure? && (!t.status.Failure? || t.quota == 0))
  }

  /** From a settled world, a poll keeps what was taken equal to what is owed exactly when it
      is safe; whatever happens, no other task is touched. */
  lemma PollSettlesIff(w: World, p: Poll)
    requires Settled(w) && p.task < |w.tasks|
    ensures Settled(AfterPoll(w, p)) <==> Safe(w.tasks[p.task], p)
    ensures forall i :: 0 <= i < |w.tasks| && i != p.task ==>
              AfterPoll(w, p).tasks[i] == w.tasks[i] && AfterPoll(w, p).taken[i] == w.taken[i]
  {
    var w', t, r := AfterPoll(w, p), w.tasks[p.task], Reported(p.report);
    assert |w'.tasks| == |w.tasks| && |w'.taken| == |w.taken|;
    assert w'.tasks[p.task].user == t.user;
    assert Valid(w');
    assert w'.taken[p.task] == Owed(w'.tasks[p.task]) <==> Safe(t, p);
  }

  // ---------------------------------------------------------------- conservation

  /** All that was taken from a user, over the first n tasks. */
  ghost function TakenFrom(w: World, u: User, n: nat): int
    requires n <= |w.tasks| == |w.taken|
  {
    if n == 0 then 0
    else TakenFrom(w, u, n - 1) + (if w.tasks[n - 1].user == u then w.taken[n - 1] else 0)
  }

  /** The user's quota plus everything taken from it. */
  ghost function Wealth(w: World, u: User): int
    requires Valid(w) && u in w.balances
  {
    w.balances[u] + TakenFrom(w, u, |w.tasks|)
  }

  lemma {:induction false} TakenFromChange(w: World, w': World, u: User, i: nat, amount: int, n: nat)
    requires n <= |w.tasks| == |w.taken| == |w'.tasks| == |w'.taken| && i < |w.tasks|
    requires forall j :: 0 <= j < |w.tasks| ==> w'.tasks[j].user == w.tasks[j].user
    requires forall j :: 0 <= j < |w.tasks| ==> w'.taken[j] == w.taken[j] + (if j == i then amount else 0)
    ensures TakenFrom(w', u, n) == TakenFrom(w, u, n) + (if i < n && w.tasks[i].user == u then amount else 0)
  {
    if n > 0 {
      TakenFromChange(w, w', u, i, amount, n - 1);
    }
  }

  /** Every poll, safe or not, only moves money between a user's quota and that user's tasks. */
  lemma PollConserves(w: World, p: Poll, u: User)
    requires Valid(w) && p.task < |w.tasks| && u in w.balances
    ensures Valid(AfterPoll(w, p)) && u in AfterPoll(w, p).balances
    ensures Wealth(AfterPoll(w, p), u) == Wealth(w, u)
  {
    var w' := AfterPoll(w, p);
    assert |w'.tasks| == |w.tasks| && |w'.taken| == |w.taken|;
    assert forall j :: 0 <= j < |w.tasks| ==> w'.tasks[j].user == w.tasks[j].user;
    TakenFromChange(w, w', u, p.task, w'.taken[p.task] - w.taken[p.task], |w.tasks|);
  }

  /** Polling only unfinished tasks, with task updates and refunds that succeed, is safe,
      whether or not the re-billing writes succeed. */
  lemma PollingUnfinishedIsSafe(t: Task, p: Poll)
    requires !t.status.Failure? && !t.status.Success? && t.quota >= 0
    requires p.updateOk && p.refundOk
    ensures Safe(t, p)
  {
  }

  // ---------------------------------------------------------------- whole runs

  /** A submission charges the task's quota and inserts the task. */
  datatype Event = Submit(user: User, quota: int) | Polled(poll: Poll)

  predicate Possible(w: World, e: Event) {
    match e
    case Submit(user, _) => user in w.balances
    case Polled(p) => p.task < |w.tasks|
  }

  function AfterEvent(w: World, e: Event): World
    requires Valid(w) && Possible(w, e)
  {
    match e
    case Submit(user, quota) =>
      World(w.tasks + [Task(user, NotStart, quota, "0%", 0, 0, "")], w.taken + [quota],
            w.balances[user := w.balances[user] - quota])
    case Polled(p) => AfterPoll(w, p)
  }

  lemma EventKeepsValid(w: World, e: Event)
    requires Valid(w) && Possible(w, e)
    ensures Valid(AfterEvent(w, e)) && w.balances.Keys <= AfterEvent(w, e).balances.Keys
  {
    if e.Polled? {
      var w', p := AfterPoll(w, e.poll), e.poll;
      assert |w'.tasks| == |w.tasks| && |w'.taken| == |w.taken|;
      assert w'.tasks[p.task].user == w.tasks[p.task].user;
    }
  }

  /** Any run: whatever is reported, whichever tasks are polled and whichever writes fail. */
  ghost predicate Run(w: World, events: seq<Event>)
    requires Valid(w)
    decreases events
  {
    events == [] ||
    (Possible(w, events[0]) && (EventKeepsValid(w, events[0]); Run(AfterEvent(w, events[0]), events[1..])))
  }

  ghost function Final(w: World, events: seq<Event>): (w': World)
    requires Valid(w) && Run(w, events)
    ensures Valid(w')
    decreases events
  {
    if events == [] then w else EventKeepsValid(w, events[0]); Final(AfterEvent(w, events[0]), events[1..])
  }

  lemma {:induction false} SubmitKeepsEarlier(w: World, e: Event, u: User, n: nat)
    requires Valid(w) && e.Submit? && Possible(w, e) && n <= |w.tasks|
    ensures TakenFrom(AfterEvent(w, e), u, n) == TakenFrom(w, u, n)
  {
    if n > 0 {
      SubmitKeepsEarlier(w, e, u, n - 1);
    }
  }

  lemma EventConserves(w: World, e: Event, u: User)
    requires Valid(w) && Possible(w, e) && u in w.balances
    ensures Valid(AfterEvent(w, e)) && u in AfterEvent(w, e).balances
    ensures Wealth(AfterEvent(w, e), u) == Wealth(w, u)
  {
    EventKeepsValid(w, e);
    match e
    case Submit(user, quota) =>
      SubmitKeepsEarlier(w, e, u, |w.tasks|);
    case Polled(p) => PollConserves(w, p, u);
  }

  /** In every run, with any failures, every user's quota is the opening quota minus what that
      user's tasks took. */
  lemma {:induction false} RunConserves(w: World, events: seq<Event>, u: User)
    requires Valid(w) && Run(w, events) && u in w.balances
    ensures u in Final(w, events).balances && Wealth(Final(w, events), u) == Wealth(w, u)
    decreases events
  {
    if events != [] {
      EventConserves(w, events[0], u);
      RunConserves(AfterEvent(w, events[0]), events[1..], u);
    }
  }

  predicate Unfinished(t: Task) {
    !t.status.Success? && !t.status.Failure?
  }

  /** What the surroundings promise: quotas charged at submission are not negative, only
      unfinished tasks are polled, and task updates and refunds succeed. Re-billing may fail. */
  predicate Regular(w: World, e: Event) {
    match e
    case Submit(_, quota) => quota >= 0
    case Polled(p) => p.task < |w.tasks| && Unfinished(w.tasks[p.task]) && p.updateOk && p.refundOk
  }

  ghost predicate RegularRun(w: World, events: seq<Event>)
    requires Valid(w) && Run(w, events)
    decreases events
  {
    events == [] || (Regular(w, events[0]) && RegularRun(AfterEvent(w, events[0]), events[1..]))
  }

  /** No unfinished task has a negative quota. */
  ghost predicate ChargedUpFront(w: World) {
    forall i :: 0 <= i < |w.tasks| && Unfinished(w.tasks[i]) ==> w.tasks[i].quota >= 0
  }

  lemma EventKeepsUpFront(w: World, e: Event)
    requires Valid(w) && Possible(w, e) && Regular(w, e) && ChargedUpFront(w)
    ensures ChargedUpFront(AfterEvent(w, e))
  {
  }

  lemma EventSettles(w: World, e: Event)
    requires Settled(w) && ChargedUpFront(w) && Possible(w, e) && Regular(w, e)
    ensures Settled(AfterEvent(w, e))
  {
    EventKeepsValid(w, e);
    if e.Polled? {
      PollingUnfinishedIsSafe(w.tasks[e.poll.task], e.poll);
      PollSettlesIff(w, e.poll);
    }
  }

  /** In every regular run what was taken for a task is its quota while it has not failed and
      zero once it has, even when re-billing writes fail. */
  lemma {:induction false} LedgerBalances(w: World, events: seq<Event>)
    requires Settled(w) && ChargedUpFront(w) && Run(w, events) && RegularRun(w, events)
    ensures Settled(Final(w, events)) && ChargedUpFront(Final(w, events))
    decreases events
  {
    if events != [] {
      EventSettles(w, events[0]);
      EventKeepsUpFront(w, events[0]);
      LedgerBalances(AfterEvent(w, events[0]), events[1..]);
    }
  }

  /** The quotas of a user's tasks that have not failed, over the first n tasks. */
  ghost function OwedBy(w: World, u: User, n: nat): int
    requires n <= |w.tasks|
  {
    if n == 0 then 0 else OwedBy(w, u, n - 1) + (if w.tasks[n - 1].user == u then Owed(w.tasks[n - 1]) else 0)
  }

  lemma {:induction false} SettledOwes(w: World, u: User, n: nat)
    requires Settled(w) && n <= |w.tasks|
    ensures TakenFrom(w, u, n) == OwedBy(w, u, n)
  {
    if n > 0 {
      SettledOwes(w, u, n - 1);
    }
  }

  /** From the first submission on, over every regular run: each user has paid exactly the quotas
      of the tasks that have not failed. */
  lemma UsersPayForWhatDidNotFail(balances: map<User, int>, events: seq<Event>, u: User)
    requires Run(World([], [], balances), events) && RegularRun(World([], [], balances), events) && u in balances
    ensures var w := Final(World([], [], balances), events);
            u in w.balances && w.balances[u] == balances[u] - OwedBy(w, u, |w.tasks|)
  {
    var w0 := World([], [], balances);
    LedgerBalances(w0, events);
    RunConserves(w0, events, u);
    SettledOwes(Final(w0, events), u, |Final(w0, events).tasks|);
  }

  /** The task is re-billed: it reports tokens, its model has a positive ratio rather than a fixed
      price, and its group is known. */
  predicate BilledByTokens(r: Report, g: Pricing) {
    r.totalTokens > 0 && g.modelName != "" && g.hasRatio && g.modelRatio > 0.0 && g.group != ""
  }

  /** n is the integer part of tokens times ratios; the user's own group ratio comes first. */
  predicate TokenPrice(r: Report, g: Pricing, n: int) {
    IsIntegerPart(n, r.totalTokens as real * g.modelRatio * (if g.userGroupRatio.Some? then g.userGroupRatio.value else g.groupRatio))
  }

  /** A finished task costs the integer part of tokens times ratios when it is billed by tokens,
      whatever was charged at submission, provided the write that charges or returns the difference
      succeeds; otherwise it costs what was charged then. */
  lemma SuccessCostsByTokens(w: World, p: Poll)
    requires Settled(w) && p.task < |w.tasks| && !w.tasks[p.task].status.Failure?
    requires p.report.status == Some(Success) && p.updateOk
    ensures var w', g, was, cost := AfterPoll(w, p), p.pricing, w.taken[p.task], AfterPoll(w, p).taken[p.task];
            && w'.tasks[p.task].quota == cost
            && (BilledByTokens(p.report, g) ==> exists n ::
                  && TokenPrice(p.report, g, n)
                  && cost == (if (n > was && p.chargeOk) || (n < was && p.returnOk) then n else was))
            && (!BilledByTokens(p.report, g) ==> cost == was)
  {
    PollSettlesIff(w, p);
    var g, was, cost := p.pricing, w.taken[p.task], AfterPoll(w, p).taken[p.task];
    assert was == Owed(w.tasks[p.task]);
    if BilledByTokens(p.report, g) {
      var n := ActualQuota(p.report, g).value;
      assert TokenPrice(p.report, g, n);
      assert cost == (if (n > was && p.chargeOk) || (n < was && p.returnOk) then n else was);
    }
  }

  // ---------------------------------------------------------------- what a poll records

  /** The progress each status stands for, unless the upstream reports one of its own. */
  predicate StandsAt(status: Status, progress: string) {
    match status
    case Submitted => progress == "10%"
    case Queued => progress == "20%"
    case InProgress => progress == "30%"
    case Success => progress == "100%"
    case Failure => progress == "100%"
    case _ => false
  }

  /** A stored poll records the reported status, with an empty one counted as a failure; the times of
      the first start and the first finish are kept; the address of a finished video or the reason
      of a failure is noted, but no inline data. */
  lemma PollRecords(w: World, p: Poll)
    requires Valid(w) && p.task < |w.tasks| && p.updateOk
    requires p.report.status.Some? ==> !p.report.status.value.NotStart? && !p.report.status.value.Unrecognised?
    ensures var was, now, r := w.tasks[p.task], AfterPoll(w, p).tasks[p.task], p.report;
            && now.status == (if r.status.None? then Failure else r.status.value) && now.user == was.user
            && (if now.status.Failure? || r.progress == "" then StandsAt(now.status, now.progress) else now.progress == r.progress)
            && now.startTime == (if now.status.InProgress? && was.startTime == 0 then p.now else was.startTime)
            && now.finishTime == (if (now.status.Success? || now.status.Failure?) && was.finishTime == 0 then p.now else was.finishTime)
            && (r.status == Some(Failure) ==> now.failReason == r.reason)
            && (r.status.None? ==> now.failReason == "upstream returned empty status")
            && (r.status == Some(Success) ==>
                  now.failReason == if |r.url| > 5 && r.url[..5] == "data:" then was.failReason else r.url)
            && (r.status.Some? && !now.status.Success? && !now.status.Failure? ==> now.failReason == was.failReason)
  {
  }

  /** A status that is not one of these five changes nothing. */
  lemma UnknownStatusChangesNothing(w: World, p: Poll)
    requires Valid(w) && p.task < |w.tasks|
    requires p.report.status == Some(NotStart) || (p.report.status.Some? && p.report.status.value.Unrecognised?)
    ensures AfterPoll(w, p) == w
  {
  }

  /** A failure, also an empty status, gives the quota of a task that has not failed before back. */
  lemma FailureGivesBack(w: World, p: Poll)
    requires Settled(w) && p.task < |w.tasks| && p.updateOk && p.refundOk
    requires p.report.status.None? || p.report.status == Some(Failure)
    requires !w.tasks[p.task].status.Failure? && w.tasks[p.task].quota >= 0
    ensures var u := w.tasks[p.task].user;
            AfterPoll(w, p).taken[p.task] == 0 && AfterPoll(w, p).balances[u] == w.balances[u] + w.tasks[p.task].quota
  {
    assert w.taken[p.task] == Owed(w.tasks[p.task]);
  }

  /** The case that is not safe: the difference is charged, storing the task fails, and the
      next poll charges it again. */
  lemma ChargedTwice(u: User)
    ensures var report := Report(Some(Success), "", "", "", 10);
            var p := Poll(0, report, Pricing("m", true, 1.0, "g", 1.0, None), 1, true, true, false, true);
            var w := World([Task(u, InProgress, 4, "30%", 1, 0, "")], [4], map[u := 100]);
            Settled(w) && !Safe(w.tasks[0], p) && AfterPoll(AfterPoll(w, p), p).taken[0] == 16
  {
  }
}
