/** The paid AI batch: one row per (user, input hash), one provider call by the worker that
    inserted it, a compare-and-set finish, and `expire_run` by anyone at any time. */
module PaidRuns {
  import opened Wrappers

  const LEASE_SECONDS: int := 180

  datatype Key = Key(user: nat, inputHash: nat)
  datatype Status = Running | Succeeded | Failed
  datatype Failure = LeaseExpired | FromProvider(code: string)
  datatype Outcome = Produced(report: nat) | Rejected(code: string)

  // ----- the row and its two UPDATE statements

  datatype Run = Run(
    status: Status, owner: Option<nat>, report: Option<nat>, error: Option<Failure>, expires: int, finished: Option<int>)

  function NewRun(owner: nat, now: int, timeout: int): Run {
    Run(Running, Some(owner), None, None, now + (if LEASE_SECONDS >= timeout + 60 then LEASE_SECONDS else timeout + 60), None)
  }

  predicate CanFinish(run: Run, owner: nat, finished: int) {
    run.owner == Some(owner) && run.status == Running && run.expires > finished
  }

  function Finished(run: Run, outcome: Outcome, finished: int): Run {
    match outcome
    case Produced(report) => Run(Succeeded, None, Some(report), None, run.expires, Some(finished))
    case Rejected(code) => Run(Status.Failed, None, None, Some(FromProvider(code)), run.expires, Some(finished))
  }

  predicate CanExpire(run: Run, now: int) {
    run.status == Running && run.expires <= now
  }

  function Expired(run: Run, now: int): Run {
    run.(status := Status.Failed, owner := None, error := Some(LeaseExpired), finished := Some(now))
  }

  class RunRow {
    var status: Status
    var owner: Option<nat>
    var report: Option<nat>
    var error: Option<Failure>
    var expires: int
    var finished: Option<int>

    function Value(): Run
      reads this
    {
      Run(status, owner, report, error, expires, finished)
    }

    constructor (token: nat, now: int, timeout: int)
      ensures Value() == NewRun(token, now, timeout)
    {
      status, owner, report, error, finished := Running, Some(token), None, None, None;
      expires := now + if LEASE_SECONDS >= timeout + 60 then LEASE_SECONDS else timeout + 60;
    }

    /** The finish UPDATE, guarded by owner, status and expiry. */
    method Finish(token: nat, outcome: Outcome, now: int) returns (changed: bool)
      modifies this
      ensures changed == CanFinish(old(Value()), token, now)
      ensures Value() == if changed then Finished(old(Value()), outcome, now) else old(Value())
    {
      changed := owner == Some(token) && status == Running && expires > now;
      if changed {
        status := if outcome.Produced? then Succeeded else Status.Failed;
        report := if outcome.Produced? then Some(outcome.report) else None;
        error := if outcome.Produced? then None else Some(FromProvider(outcome.code));
        owner := None;
        finished := Some(now);
      }
    }

    /** The UPDATE of `expire_run`. */
    method Expire(now: int)
      modifies this
      ensures Value() == if CanExpire(old(Value()), now) then Expired(old(Value()), now) else old(Value())
    {
      if status == Running && expires <= now {
        status := Status.Failed;
        error := Some(LeaseExpired);
        owner := None;
        finished := Some(now);
      }
    }
  }

  // ----- the machine

  /** Where one request is. `mine` marks the request that made the provider call; a `snapshot` is
      the row as that request loaded it. */
  datatype Pc =
    | Idle
    | Looking(key: Key)
    | Absent(key: Key)
    | Claiming(key: Key, now: int, owner: nat)
    | Collided(key: Key)
    | Calling(key: Key, owner: nat)
    | Called(key: Key, owner: nat, outcome: Outcome)
    | Finishing(key: Key, owner: nat, outcome: Outcome, now: int)
    | Reloading(key: Key, matched: bool, now: int)
    | Expiring(key: Key, snapshot: Run, mine: bool)
    | Updating(key: Key, snapshot: Run, mine: bool, now: int)
    | Refreshing(key: Key, mine: bool, now: int)
    | Returned(key: Key, run: Run, mine: bool, now: int)
    | Conflict(key: Key)

  datatype Call = Call(key: Key, outcome: Outcome)

  datatype State = State(clock: int, table: map<Key, Run>, calls: seq<Call>, issued: nat, workers: map<nat, Pc>)

  datatype Step =
    | Tick(seconds: nat)
    | Begin(w: nat, key: Key)
    | Lookup(w: nat)
    | ReadClock(w: nat)
    | Insert(w: nat, timeout: int)
    | LookupAgain(w: nat)
    | CallProvider(w: nat, outcome: Outcome)
    | Finish(w: nat)
    | Reload(w: nat)
    | Update(w: nat)
    | Refresh(w: nat)
    | Crash(w: nat)

  function Start(clock: int): State {
    State(clock, map[], [], 0, map[])
  }

  function PcOf(s: State, w: nat): Pc {
    if w in s.workers then s.workers[w] else Idle
  }

  function Go(s: State, w: nat, pc: Pc): State {
    s.(workers := s.workers[w := pc])
  }

  /** The next action of worker w when it reads the database clock. */
  function Clocked(s: State, w: nat): State {
    match PcOf(s, w)
    case Absent(key) => Go(s, w, Claiming(key, s.clock, s.issued)).(issued := s.issued + 1)
    case Called(key, owner, outcome) => Go(s, w, Finishing(key, owner, outcome, s.clock))
    case Expiring(key, snapshot, mine) =>
      Go(s, w, if CanExpire(snapshot, s.clock) then Updating(key, snapshot, mine, s.clock) else Returned(key, snapshot, mine, s.clock))
    case _ => s
  }

  /** A step that does not apply changes nothing. */
  function Next(s: State, step: Step): State {
    match step
    case Tick(seconds) => s.(clock := s.clock + seconds)
    case Crash(w) => s.(workers := s.workers - {w})
    case Begin(w, key) => if PcOf(s, w).Idle? then Go(s, w, Looking(key)) else s
    case ReadClock(w) => Clocked(s, w)
    case Lookup(w) =>
      (match PcOf(s, w)
       case Looking(key) => Go(s, w, if key in s.table then Expiring(key, s.table[key], false) else Absent(key))
       case _ => s)
    case Insert(w, timeout) =>
      (match PcOf(s, w)
       case Claiming(key, now, owner) =>
         if key in s.table then Go(s, w, Collided(key))
         else Go(s, w, Calling(key, owner)).(table := s.table[key := NewRun(owner, now, timeout)])
       case _ => s)
    case LookupAgain(w) =>
      (match PcOf(s, w)
       case Collided(key) => Go(s, w, if key in s.table then Expiring(key, s.table[key], false) else Conflict(key))
       case _ => s)
    case CallProvider(w, outcome) =>
      (match PcOf(s, w)
       case Calling(key, owner) => Go(s, w, Called(key, owner, outcome)).(calls := s.calls + [Call(key, outcome)])
       case _ => s)
    case Finish(w) =>
      (match PcOf(s, w)
       case Finishing(key, owner, outcome, now) =>
         if key in s.table && CanFinish(s.table[key], owner, now)
         then Go(s, w, Reloading(key, true, now)).(table := s.table[key := Finished(s.table[key], outcome, now)])
         else Go(s, w, Reloading(key, false, now))
       case _ => s)
    case Reload(w) =>
      (match PcOf(s, w)
       case Reloading(key, matched, now) =>
         if key !in s.table then s
         else Go(s, w, if matched then Returned(key, s.table[key], true, now) else Expiring(key, s.table[key], true))
       case _ => s)
    case Update(w) =>
      (match PcOf(s, w)
       case Updating(key, snapshot, mine, now) =>
         if key in s.table && CanExpire(s.table[key], now)
         then Go(s, w, Refreshing(key, mine, now)).(table := s.table[key := Expired(s.table[key], now)])
         else Go(s, w, Refreshing(key, mine, now))
       case _ => s)
    case Refresh(w) =>
      (match PcOf(s, w)
       case Refreshing(key, mine, now) => if key in s.table then Go(s, w, Returned(key, s.table[key], mine, now)) else s
       case _ => s)
  }

  function Exec(s: State, steps: seq<Step>): State
    decreases steps
  {
    if steps == [] then s else Exec(Next(s, steps[0]), steps[1..])
  }

  // ----- the invariant

  predicate Terminal(run: Run) {
    run.status != Running
  }

  predicate WasCalled(calls: seq<Call>, key: Key, outcome: Outcome) {
    Call(key, outcome) in calls
  }

  /** `running` exactly when owned, `succeeded` exactly with a report, an error exactly when
      failed; a provider's answer counts only before the expiry, a lease failure only after it,
      and both only if they happened. */
  predicate RunOk(run: Run, key: Key, calls: seq<Call>) {
    && (run.status == Running <==> run.owner.Some?)
    && (run.status == Succeeded <==> run.report.Some?)
    && (run.status == Status.Failed <==> run.error.Some?)
    && (run.status == Running <==> run.finished.None?)
    && (run.report.Some? ==> WasCalled(calls, key, Produced(run.report.value)) && run.finished.value < run.expires)
    && (run.error.Some? && run.error.value.FromProvider? ==>
          WasCalled(calls, key, Rejected(run.error.value.code)) && run.finished.value < run.expires)
    && (run.error == Some(LeaseExpired) ==> run.expires <= run.finished.value)
  }

  /** A loaded snapshot can only differ from the row by being still `running`. */
  predicate Loaded(s: State, key: Key, snapshot: Run) {
    && key in s.table && snapshot.expires == s.table[key].expires
    && (Terminal(snapshot) ==> snapshot == s.table[key])
  }

  predicate Owning(pc: Pc) {
    pc.Calling? || pc.Called? || pc.Finishing?
  }

  ghost predicate PcOk(s: State, pc: Pc) {
    match pc
    case Idle | Looking(_) | Absent(_) => true
    case Claiming(_, now, owner) => now <= s.clock && owner < s.issued
    case Collided(key) => key in s.table
    case Calling(key, owner) => OwnsRow(s, key, owner) && forall o :: !WasCalled(s.calls, key, o)
    case Called(key, owner, outcome) => OwnsRow(s, key, owner) && WasCalled(s.calls, key, outcome)
    case Finishing(key, owner, outcome, now) => OwnsRow(s, key, owner) && WasCalled(s.calls, key, outcome) && now <= s.clock
    case Reloading(key, matched, now) =>
      key in s.table && now <= s.clock && (Terminal(s.table[key]) || (!matched && s.table[key].expires <= now))
    case Expiring(key, snapshot, mine) => Loaded(s, key, snapshot) && (mine && !Terminal(snapshot) ==> snapshot.expires <= s.clock)
    case Updating(key, snapshot, _, now) => Loaded(s, key, snapshot) && snapshot.expires <= now <= s.clock
    case Refreshing(key, _, now) => key in s.table && Terminal(s.table[key])
    case Returned(key, run, mine, now) => Loaded(s, key, run) && (Terminal(run) || (!mine && run.expires > now))
    case Conflict(_) => false
  }

  predicate OwnsRow(s: State, key: Key, owner: nat) {
    key in s.table && (Terminal(s.table[key]) || s.table[key].owner == Some(owner))
  }

  ghost predicate WorkersOk(s: State) {
    forall w :: w in s.workers ==> PcOk(s, s.workers[w])
  }

  ghost predicate RowsOk(s: State) {
    forall key :: key in s.table ==> RunOk(s.table[key], key, s.calls)
  }

  ghost predicate OneOwner(s: State) {
    forall v, w :: v in s.workers && w in s.workers && v != w && Owning(s.workers[v]) && Owning(s.workers[w])
      ==> s.workers[v].key != s.workers[w].key
  }

  ghost predicate CalledOnce(s: State) {
    && (forall i :: 0 <= i < |s.calls| ==> s.calls[i].key in s.table)
    && (forall i, j :: 0 <= i < j < |s.calls| ==> s.calls[i].key != s.calls[j].key)
  }

  ghost predicate Inv(s: State) {
    WorkersOk(s) && RowsOk(s) && OneOwner(s) && CalledOnce(s)
  }

  /** What a step may do to the table: add rows, and move a running row to a terminal one with the
      same expiry. */
  ghost predicate Advances(s: State, n: State) {
    && s.clock <= n.clock && s.issued <= n.issued
    && (forall c :: c in s.calls ==> c in n.calls)
    && (forall key :: key in s.table ==> key in n.table && RunAdvances(s.table[key], n.table[key]))
  }

  predicate RunAdvances(before: Run, after: Run) {
    before == after || (!Terminal(before) && Terminal(after) && after.expires == before.expires)
  }

  lemma StepAdvances(s: State, step: Step)
    ensures Advances(s, Next(s, step))
  {
  }

  function Actor(step: Step): Option<nat> {
    match step
    case Tick(_) => None
    case _ => Some(step.w)
  }

  lemma OthersStay(s: State, step: Step, w: nat)
    requires w in Next(s, step).workers && Actor(step) != Some(w)
    ensures w in s.workers && Next(s, step).workers[w] == s.workers[w]
  {
  }

  /** Whatever other workers do, a worker that has not moved keeps its part of the invariant. */
  lemma PcStaysOk(s: State, n: State, pc: Pc)
    requires Advances(s, n) && PcOk(s, pc)
    requires pc.Calling? ==> forall o :: !WasCalled(n.calls, pc.key, o)
    ensures PcOk(n, pc)
  {
  }

  lemma ReaderStaysOk(s: State, step: Step)
    requires Inv(s) && (step.Begin? || step.Lookup? || step.ReadClock? || step.LookupAgain? || step.Reload? || step.Refresh?)
    requires step.w in Next(s, step).workers
    ensures PcOk(Next(s, step), Next(s, step).workers[step.w])
  {
    hide RowsOk, OneOwner, CalledOnce, WasCalled;
    assert step.w in s.workers ==> PcOk(s, s.workers[step.w]);
  }

  lemma WriterStaysOk(s: State, step: Step)
    requires Inv(s) && (step.Insert? || step.CallProvider? || step.Finish? || step.Update?)
    requires step.w in Next(s, step).workers
    ensures PcOk(Next(s, step), Next(s, step).workers[step.w])
  {
    hide RowsOk, OneOwner;
    var n := Next(s, step);
    assert step.w in s.workers && PcOk(s, s.workers[step.w]);
    if n == s {
    } else if step.Insert? {
      assert forall i :: 0 <= i < |s.calls| ==> s.calls[i].key in s.table;
    } else if step.CallProvider? {
      assert n.calls[|s.calls|] in n.calls;
    }
  }

  lemma ActorStaysOk(s: State, step: Step, w: nat)
    requires Inv(s) && Actor(step) == Some(w) && w in Next(s, step).workers
    ensures PcOk(Next(s, step), Next(s, step).workers[w])
  {
    hide PcOk, Inv;
    if step.Insert? || step.CallProvider? || step.Finish? || step.Update? {
      WriterStaysOk(s, step);
    } else {
      ReaderStaysOk(s, step);
    }
  }

  lemma StepKeepsWorkers(s: State, step: Step)
    requires Inv(s)
    ensures WorkersOk(Next(s, step))
  {
    var n := Next(s, step);
    forall w | w in n.workers
      ensures PcOk(n, n.workers[w])
    {
      if Actor(step) == Some(w) {
        ActorStaysOk(s, step, w);
      } else {
        OthersStay(s, step, w);
        StepAdvances(s, step);
        var pc := s.workers[w];
        if pc.Calling? {
          forall o
            ensures !WasCalled(n.calls, pc.key, o)
          {
            CallsByOthers(s, step, w, o);
          }
        }
        PcStaysOk(s, n, pc);
      }
    }
  }

  lemma CallsByOthers(s: State, step: Step, w: nat, o: Outcome)
    requires Inv(s) && w in s.workers && s.workers[w].Calling? && Actor(step) != Some(w)
    ensures !WasCalled(Next(s, step).calls, s.workers[w].key, o)
  {
    assert !WasCalled(s.calls, s.workers[w].key, o);
  }

  lemma FinishedOk(run: Run, key: Key, calls: seq<Call>, owner: nat, outcome: Outcome, now: int)
    requires CanFinish(run, owner, now) && WasCalled(calls, key, outcome)
    ensures RunOk(Finished(run, outcome, now), key, calls)
  {
  }

  lemma ExpiredOk(run: Run, key: Key, calls: seq<Call>, now: int)
    requires RunOk(run, key, calls) && CanExpire(run, now)
    ensures RunOk(Expired(run, now), key, calls)
  {
  }

  lemma NewRunOk(owner: nat, now: int, timeout: int, key: Key, calls: seq<Call>)
    ensures RunOk(NewRun(owner, now, timeout), key, calls)
  {
  }

  lemma RunOkLasts(run: Run, key: Key, calls: seq<Call>, more: seq<Call>)
    requires RunOk(run, key, calls) && forall c :: c in calls ==> c in more
    ensures RunOk(run, key, more)
  {
  }

  lemma StepKeepsRows(s: State, step: Step)
    requires Inv(s)
    ensures RowsOk(Next(s, step))
  {
    hide OneOwner, CalledOnce, RunOk, CanFinish, CanExpire, Finished, Expired, NewRun, WasCalled;
    var n := Next(s, step);
    StepAdvances(s, step);
    hide RunAdvances;
    forall key | key in n.table
      ensures RunOk(n.table[key], key, n.calls)
    {
      if key in s.table && n.table[key] == s.table[key] {
        RunOkLasts(s.table[key], key, s.calls, n.calls);
      } else {
        assert PcOk(s, s.workers[step.w]);
        match s.workers[step.w]
        case Claiming(_, now, owner) => NewRunOk(owner, now, step.timeout, key, n.calls);
        case Finishing(_, owner, outcome, now) => FinishedOk(s.table[key], key, n.calls, owner, outcome, now);
        case Updating(_, _, _, now) => ExpiredOk(s.table[key], key, n.calls, now);
        case _ =>
      }
    }
  }

  /** An owning worker was already one before the step, or has just inserted the row. */
  lemma OwningFrom(s: State, step: Step, w: nat)
    requires w in Next(s, step).workers && Owning(Next(s, step).workers[w])
    ensures var key := Next(s, step).workers[w].key;
      if w in s.workers && Owning(s.workers[w]) then s.workers[w].key == key
      else step.Insert? && step.w == w && key !in s.table
  {
    hide CanFinish, CanExpire, Finished, Expired, NewRun;
  }

  lemma StepKeepsOneOwner(s: State, step: Step)
    requires Inv(s)
    ensures OneOwner(Next(s, step))
  {
    hide RowsOk, CalledOnce, Next;
    var n := Next(s, step);
    forall v, w | v in n.workers && w in n.workers && v != w && Owning(n.workers[v]) && Owning(n.workers[w])
      ensures n.workers[v].key != n.workers[w].key
    {
      OwningFrom(s, step, v);
      OwningFrom(s, step, w);
      assert v in s.workers && Owning(s.workers[v]) ==> PcOk(s, s.workers[v]);
      assert w in s.workers && Owning(s.workers[w]) ==> PcOk(s, s.workers[w]);
    }
  }

  lemma WasCalledAt(calls: seq<Call>, i: nat)
    requires i < |calls|
    ensures WasCalled(calls, calls[i].key, calls[i].outcome)
  {
    assert calls[i] == Call(calls[i].key, calls[i].outcome);
  }

  lemma StepKeepsOneCall(s: State, step: Step)
    requires Inv(s)
    ensures CalledOnce(Next(s, step))
  {
    hide RowsOk, OneOwner, CanFinish, CanExpire, Finished, Expired, NewRun;
    if step.CallProvider? && PcOf(s, step.w).Calling? {
      var key := s.workers[step.w].key;
      forall i | 0 <= i < |s.calls|
        ensures s.calls[i].key != key
      {
        WasCalledAt(s.calls, i);
      }
    }
  }

  lemma StepKeepsInv(s: State, step: Step)
    requires Inv(s)
    ensures Inv(Next(s, step))
  {
    StepKeepsWorkers(s, step);
    StepKeepsRows(s, step);
    StepKeepsOneOwner(s, step);
    StepKeepsOneCall(s, step);
    hide Next, WorkersOk, RowsOk, OneOwner, CalledOnce;
  }

  lemma {:induction false} RunKeepsInv(s: State, steps: seq<Step>)
    requires Inv(s)
    ensures Inv(Exec(s, steps))
    decreases steps
  {
    if steps != [] {
      StepKeepsInv(s, steps[0]);
      RunKeepsInv(Next(s, steps[0]), steps[1..]);
    }
  }

  /** What an insert stores: a running row of this owner, held for 180 seconds or for the provider's
      timeout and a minute, whichever is longer. */
  lemma InsertStores(s: State, w: nat, timeout: int)
    requires PcOf(s, w).Claiming? && PcOf(s, w).key !in s.table
    ensures var pc, n := PcOf(s, w), Next(s, Insert(w, timeout));
      && pc.key in n.table && var run := n.table[pc.key];
      && run.status == Running && run.owner == Some(pc.owner) && run.report.None? && run.error.None? && run.finished.None?
      && run.expires >= pc.now + 180 && run.expires >= pc.now + timeout + 60
      && (run.expires == pc.now + 180 || run.expires == pc.now + timeout + 60)
  {
  }

  /** A finish lands exactly while the row is still its worker's and has not expired by the clock
      reading used, and stores the provider's answer. */
  lemma FinishIff(s: State, w: nat)
    requires PcOf(s, w).Finishing? && PcOf(s, w).key in s.table
    ensures var pc, n := PcOf(s, w), Next(s, Finish(w)); var before, after := s.table[pc.key], n.table[pc.key];
      if before.status == Running && before.owner == Some(pc.owner) && pc.now < before.expires then
        && after.finished == Some(pc.now) && after.owner.None? && after.expires == before.expires
        && (match pc.outcome
            case Produced(report) => after.status == Succeeded && after.report == Some(report) && after.error.None?
            case Rejected(code) => after.status == Status.Failed && after.report.None? && after.error == Some(FromProvider(code)))
      else after == before
  {
  }

  /** An expiry lands exactly on a running row whose time is up by the clock reading used. */
  lemma ExpireIff(s: State, w: nat)
    requires PcOf(s, w).Updating? && PcOf(s, w).key in s.table
    ensures var pc, n := PcOf(s, w), Next(s, Update(w)); var before, after := s.table[pc.key], n.table[pc.key];
      if before.status == Running && before.expires <= pc.now
      then after == Run(Status.Failed, None, before.report, Some(LeaseExpired), before.expires, Some(pc.now))
      else after == before
  {
  }

  // ----- over all runs

  /** In every interleaving, with crashes, each (user, input hash) gets at most one provider
      call. */
  lemma AtMostOneCall(clock: int, steps: seq<Step>, i: nat, j: nat)
    requires i < j < |Exec(Start(clock), steps).calls|
    ensures Exec(Start(clock), steps).calls[i].key != Exec(Start(clock), steps).calls[j].key
  {
    RunKeepsInv(Start(clock), steps);
  }

  /** A row leaves `running` at most once, never changes afterwards and is never lost. */
  lemma {:induction false} TerminalForever(s: State, steps: seq<Step>, key: Key)
    requires key in s.table
    ensures key in Exec(s, steps).table && RunAdvances(s.table[key], Exec(s, steps).table[key])
    ensures Terminal(s.table[key]) ==> Exec(s, steps).table[key] == s.table[key]
    decreases steps
  {
    if steps != [] {
      StepAdvances(s, steps[0]);
      TerminalForever(Next(s, steps[0]), steps[1..], key);
    }
  }

  /** Status, owner, report, error and times always agree, and a stored answer is the one the
      provider gave for that key. */
  lemma RowsAgree(clock: int, steps: seq<Step>, key: Key)
    requires key in Exec(Start(clock), steps).table
    ensures RunOk(Exec(Start(clock), steps).table[key], key, Exec(Start(clock), steps).calls)
  {
    RunKeepsInv(Start(clock), steps);
  }

  /** The request that paid for the call always returns the terminal row. Any other request
      returns the terminal row or one whose lease had not run out when it looked. */
  lemma ReturnsAreSettled(clock: int, steps: seq<Step>, w: nat)
    requires PcOf(Exec(Start(clock), steps), w).Returned?
    ensures var end := Exec(Start(clock), steps); var pc := PcOf(end, w);
      && pc.key in end.table
      && (pc.mine ==> Terminal(pc.run))
      && (if Terminal(pc.run) then pc.run == end.table[pc.key] else pc.run.expires > pc.now)
  {
    RunKeepsInv(Start(clock), steps);
  }

  /** The 409 for a claim that lost its insert and then finds no row cannot happen. */
  lemma NoClaimConflict(clock: int, steps: seq<Step>, w: nat)
    ensures !PcOf(Exec(Start(clock), steps), w).Conflict?
  {
    RunKeepsInv(Start(clock), steps);
  }

  /** When the paying worker's finish matches no row, the row is already terminal or the
      `expire_run` that follows is bound to expire it. */
  lemma LostFinishIsExpired(clock: int, steps: seq<Step>, w: nat, later: nat)
    requires var pc := PcOf(Exec(Start(clock), steps), w); pc.Reloading? && !pc.matched
    ensures var end := Exec(Start(clock), steps); var key := PcOf(end, w).key;
      key in end.table && (Terminal(end.table[key]) || CanExpire(end.table[key], end.clock + later))
  {
    RunKeepsInv(Start(clock), steps);
  }
}
