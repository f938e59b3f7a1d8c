/** What one request for a paid batch comes to when nobody disturbs it: who calls the provider, what
    is stored and what is returned. */
module PaidRequests {
  import opened Wrappers
  import opened PaidRuns

  lemma ExecFirst(s: State, step: Step, rest: seq<Step>)
    ensures Exec(s, [step] + rest) == Exec(Next(s, step), rest)
  {
    hide Next;
    assert ([step] + rest)[1..] == rest;
  }

  /** How long the inserted row lives. */
  function Allowance(timeout: int): (r: int)
    ensures r >= 180 && r >= timeout + 60 && (r == 180 || r == timeout + 60)
  {
    if timeout > 120 then timeout + 60 else 180
  }

  /** The row that a call leaves which answered within its allowance, or did not. */
  predicate Settles(run: Run, outcome: Outcome, start: int, delay: nat, timeout: int) {
    && run.owner.None? && run.expires == start + Allowance(timeout) && run.finished == Some(start + delay)
    && if delay >= Allowance(timeout) then run.status == Status.Failed && run.report.None? && run.error == Some(LeaseExpired)
       else match outcome
            case Produced(report) => run.status == Succeeded && run.report == Some(report) && run.error.None?
            case Rejected(code) => run.status == Status.Failed && run.report.None? && run.error == Some(FromProvider(code))
  }

  /** A request for a new batch, whose provider answers after `delay` seconds: it makes one call and
      returns the row it stored, which holds the answer exactly when it came within the allowance. */
  lemma FirstRequestPays(s: State, w: nat, key: Key, timeout: int, outcome: Outcome, delay: nat) returns (steps: seq<Step>)
    requires PcOf(s, w).Idle? && key !in s.table
    ensures var n := Exec(s, steps);
      && n.calls == s.calls + [Call(key, outcome)] && n.clock == s.clock + delay
      && key in n.table && n.table == s.table[key := n.table[key]] && Settles(n.table[key], outcome, s.clock, delay, timeout)
      && PcOf(n, w) == Returned(key, n.table[key], true, s.clock + delay)
  {
    var called := Asks(s, w, key, timeout, outcome);
    var late := Next(called, Tick(delay));
    var more := Settling(late, w, s.clock, delay, timeout);
    steps := [Begin(w, key)] + ([Lookup(w)] + ([ReadClock(w)] + ([Insert(w, timeout)] + ([CallProvider(w, outcome)] + ([Tick(delay)] + more)))));
    var s1 := Next(s, Begin(w, key));
    var s2 := Next(s1, Lookup(w));
    var s3 := Next(s2, ReadClock(w));
    var s4 := Next(s3, Insert(w, timeout));
    hide Next;
    ExecFirst(s, Begin(w, key), [Lookup(w)] + ([ReadClock(w)] + ([Insert(w, timeout)] + ([CallProvider(w, outcome)] + ([Tick(delay)] + more)))));
    ExecFirst(s1, Lookup(w), [ReadClock(w)] + ([Insert(w, timeout)] + ([CallProvider(w, outcome)] + ([Tick(delay)] + more))));
    ExecFirst(s2, ReadClock(w), [Insert(w, timeout)] + ([CallProvider(w, outcome)] + ([Tick(delay)] + more)));
    ExecFirst(s3, Insert(w, timeout), [CallProvider(w, outcome)] + ([Tick(delay)] + more));
    ExecFirst(s4, CallProvider(w, outcome), [Tick(delay)] + more);
    ExecFirst(called, Tick(delay), more);
  }

  lemma Asks(s: State, w: nat, key: Key, timeout: int, outcome: Outcome) returns (n: State)
    requires PcOf(s, w).Idle? && key !in s.table
    ensures n == Next(Next(Next(Next(Next(s, Begin(w, key)), Lookup(w)), ReadClock(w)), Insert(w, timeout)), CallProvider(w, outcome))
    ensures n.clock == s.clock && n.calls == s.calls + [Call(key, outcome)] && PcOf(n, w) == Called(key, s.issued, outcome)
    ensures key in n.table && n.table == s.table[key := n.table[key]]
    ensures n.table[key] == Run(Running, Some(s.issued), None, None, s.clock + Allowance(timeout), None)
  {
    var s1 := Next(s, Begin(w, key));
    var s2 := Next(s1, Lookup(w));
    assert PcOf(s2, w) == Absent(key) && s2 == s.(workers := s2.workers);
    var s3 := Next(s2, ReadClock(w));
    assert PcOf(s3, w) == Claiming(key, s.clock, s.issued) && s3 == s.(workers := s3.workers, issued := s3.issued);
    var s4 := Next(s3, Insert(w, timeout));
    assert PcOf(s4, w) == Calling(key, s.issued);
    n := Next(s4, CallProvider(w, outcome));
  }

  lemma Settling(s: State, w: nat, start: int, delay: nat, timeout: int) returns (steps: seq<Step>)
    requires PcOf(s, w).Called? && s.clock == start + delay && PcOf(s, w).key in s.table
    requires s.table[PcOf(s, w).key] == Run(Running, Some(PcOf(s, w).owner), None, None, start + Allowance(timeout), None)
    ensures var pc, n := PcOf(s, w), Exec(s, steps);
      && n.calls == s.calls && n.clock == s.clock && pc.key in n.table && n.table == s.table[pc.key := n.table[pc.key]]
      && Settles(n.table[pc.key], pc.outcome, start, delay, timeout)
      && PcOf(n, w) == Returned(pc.key, n.table[pc.key], true, s.clock)
  {
    hide Next, Exec, Settles;
    if delay < Allowance(timeout) {
      steps := InTime(s, w, start, delay, timeout);
    } else {
      steps := Overdue(s, w, start, delay, timeout);
    }
  }

  lemma Overdue(s: State, w: nat, start: int, delay: nat, timeout: int) returns (steps: seq<Step>)
    requires PcOf(s, w).Called? && s.clock == start + delay && PcOf(s, w).key in s.table && delay >= Allowance(timeout)
    requires s.table[PcOf(s, w).key] == Run(Running, Some(PcOf(s, w).owner), None, None, start + Allowance(timeout), None)
    ensures var pc, n := PcOf(s, w), Exec(s, steps);
      && n.calls == s.calls && n.clock == s.clock && pc.key in n.table && n.table == s.table[pc.key := n.table[pc.key]]
      && Settles(n.table[pc.key], pc.outcome, start, delay, timeout)
      && PcOf(n, w) == Returned(pc.key, n.table[pc.key], true, s.clock)
  {
    hide Next, Exec;
    var s1 := Next(s, ReadClock(w));
    var s2 := Next(s1, Finish(w));
    var s3 := TooLate(s, w);
    var rest := Expires(s3, w);
    steps := [ReadClock(w)] + ([Finish(w)] + ([Reload(w)] + rest));
    ExecFirst(s, ReadClock(w), [Finish(w)] + ([Reload(w)] + rest));
    ExecFirst(s1, Finish(w), [Reload(w)] + rest);
    ExecFirst(s2, Reload(w), rest);
  }

  lemma TooLate(s: State, w: nat) returns (n: State)
    requires PcOf(s, w).Called? && PcOf(s, w).key in s.table && s.table[PcOf(s, w).key].expires <= s.clock
    ensures n == Next(Next(Next(s, ReadClock(w)), Finish(w)), Reload(w))
    ensures PcOf(n, w) == Expiring(PcOf(s, w).key, s.table[PcOf(s, w).key], true) && n == s.(workers := n.workers)
  {
    var pc := PcOf(s, w);
    var s1 := Next(s, ReadClock(w));
    assert PcOf(s1, w) == Finishing(pc.key, pc.owner, pc.outcome, s.clock) && s1 == s.(workers := s1.workers);
    var s2 := Next(s1, Finish(w));
    assert PcOf(s2, w) == Reloading(pc.key, false, s.clock) && s2 == s.(workers := s2.workers);
    n := Next(s2, Reload(w));
  }

  lemma InTime(s: State, w: nat, start: int, delay: nat, timeout: int) returns (steps: seq<Step>)
    requires PcOf(s, w).Called? && s.clock == start + delay && PcOf(s, w).key in s.table && delay < Allowance(timeout)
    requires s.table[PcOf(s, w).key] == Run(Running, Some(PcOf(s, w).owner), None, None, start + Allowance(timeout), None)
    ensures var pc, n := PcOf(s, w), Exec(s, steps);
      && n.calls == s.calls && n.clock == s.clock && pc.key in n.table && n.table == s.table[pc.key := n.table[pc.key]]
      && Settles(n.table[pc.key], pc.outcome, start, delay, timeout)
      && PcOf(n, w) == Returned(pc.key, n.table[pc.key], true, s.clock)
  {
    steps := [ReadClock(w), Finish(w), Reload(w)];
    ExecThree(s, ReadClock(w), Finish(w), Reload(w));
    hide Exec;
    var pc := PcOf(s, w);
    var s1 := Next(s, ReadClock(w));
    assert PcOf(s1, w) == Finishing(pc.key, pc.owner, pc.outcome, s.clock) && s1 == s.(workers := s1.workers);
    var s2 := Next(s1, Finish(w));
    assert PcOf(s2, w) == Reloading(pc.key, true, s.clock)
      && s2 == s.(workers := s2.workers, table := s.table[pc.key := Finished(s.table[pc.key], pc.outcome, s.clock)]);
  }

  lemma ExecThree(s: State, a: Step, b: Step, c: Step)
    ensures Exec(s, [a, b, c]) == Next(Next(Next(s, a), b), c)
  {
    hide Next;
    assert [a, b, c][1..] == [b, c] && [b, c][1..] == [c] && [c][1..] == [];
    assert Exec(s, [a, b, c]) == Exec(Next(s, a), [b, c]) == Exec(Next(Next(s, a), b), [c]);
  }

  /** A request that has loaded a row returns it as it stands, unless its time is over: then it is
      failed first. */
  lemma Expires(s: State, w: nat) returns (steps: seq<Step>)
    requires PcOf(s, w).Expiring? && PcOf(s, w).key in s.table && s.table[PcOf(s, w).key] == PcOf(s, w).snapshot
    ensures var pc, n := PcOf(s, w), Exec(s, steps); var run := s.table[pc.key];
      && n.calls == s.calls && n.clock == s.clock && pc.key in n.table && n.table == s.table[pc.key := n.table[pc.key]]
      && PcOf(n, w) == Returned(pc.key, n.table[pc.key], pc.mine, s.clock)
      && n.table[pc.key] == (if run.status == Running && run.expires <= s.clock
                             then Run(Status.Failed, None, run.report, Some(LeaseExpired), run.expires, Some(s.clock)) else run)
  {
    var run := PcOf(s, w).snapshot;
    if run.status == Running && run.expires <= s.clock {
      steps := ExpiresNow(s, w);
    } else {
      steps := [ReadClock(w)] + [];
      var n := Next(s, ReadClock(w));
      assert s.table == s.table[PcOf(s, w).key := run];
      ExecFirst(s, ReadClock(w), []);
    }
  }

  lemma ExpiresNow(s: State, w: nat) returns (steps: seq<Step>)
    requires PcOf(s, w).Expiring? && PcOf(s, w).key in s.table && s.table[PcOf(s, w).key] == PcOf(s, w).snapshot
    requires PcOf(s, w).snapshot.status == Running && PcOf(s, w).snapshot.expires <= s.clock
    ensures var pc, n := PcOf(s, w), Exec(s, steps); var run := s.table[pc.key];
      && n.calls == s.calls && n.clock == s.clock && pc.key in n.table && n.table == s.table[pc.key := n.table[pc.key]]
      && PcOf(n, w) == Returned(pc.key, n.table[pc.key], pc.mine, s.clock)
      && n.table[pc.key] == Run(Status.Failed, None, run.report, Some(LeaseExpired), run.expires, Some(s.clock))
  {
    steps := [ReadClock(w), Update(w), Refresh(w)];
    ExecThree(s, ReadClock(w), Update(w), Refresh(w));
    var pc, expired := PcOf(s, w), Run(Status.Failed, None, PcOf(s, w).snapshot.report, Some(LeaseExpired), PcOf(s, w).snapshot.expires, Some(s.clock));
    var s1 := Next(s, ReadClock(w));
    assert PcOf(s1, w) == Updating(pc.key, pc.snapshot, pc.mine, s.clock) && s1 == s.(workers := s1.workers);
    var s2 := Next(s1, Update(w));
    assert PcOf(s2, w) == Refreshing(pc.key, pc.mine, s.clock) && s2 == s.(workers := s2.workers, table := s.table[pc.key := expired]);
    hide Exec;
  }

  /** What every other request comes to: no call, and the stored row, failed first if its time is over. */
  predicate Served(s: State, n: State, w: nat, key: Key)
    requires key in s.table
  {
    var run := s.table[key];
    && n.calls == s.calls && key in n.table && n.table == s.table[key := n.table[key]]
    && PcOf(n, w) == Returned(key, n.table[key], false, s.clock)
    && n.table[key] == if run.status == Running && run.expires <= s.clock
                       then Run(Status.Failed, None, run.report, Some(LeaseExpired), run.expires, Some(s.clock)) else run
  }

  /** A request for a batch that is stored already calls nobody. */
  lemma LaterRequestReads(s: State, w: nat, key: Key) returns (steps: seq<Step>)
    requires PcOf(s, w).Idle? && key in s.table
    ensures Served(s, Exec(s, steps), w, key)
  {
    var s1 := Next(s, Begin(w, key));
    var s2 := Next(s1, Lookup(w));
    var rest := Expires(s2, w);
    steps := [Begin(w, key)] + ([Lookup(w)] + rest);
    ExecFirst(s, Begin(w, key), [Lookup(w)] + rest);
    ExecFirst(s1, Lookup(w), rest);
  }

  /** Neither does one that loses the race to insert. */
  lemma RaceLoserReads(s: State, w: nat, timeout: int) returns (steps: seq<Step>)
    requires PcOf(s, w).Claiming? && PcOf(s, w).key in s.table
    ensures Served(s, Exec(s, steps), w, PcOf(s, w).key)
  {
    var s1 := Next(s, Insert(w, timeout));
    var s2 := Next(s1, LookupAgain(w));
    var rest := Expires(s2, w);
    steps := [Insert(w, timeout)] + ([LookupAgain(w)] + rest);
    ExecFirst(s, Insert(w, timeout), [LookupAgain(w)] + rest);
    ExecFirst(s1, LookupAgain(w), rest);
  }
}
