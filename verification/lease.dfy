/** `SourceLease`: one leased row, many workers and heartbeat threads, crashes and a database
    clock that is read before the update that uses it. */
module Leases {
  import opened Wrappers

  const LEASE_SECONDS: int := 300

  type Token = nat

  // ----- the row and the three UPDATE statements

  datatype Row = Row(owner: Option<Token>, heartbeat: Option<int>, expires: Option<int>, run: Option<nat>)

  const Unowned: Row := Row(None, None, None, None)

  predicate Claimable(row: Row, now: int) {
    row.owner.None? || row.expires.None? || row.expires.value <= now
  }

  function Claimed(row: Row, token: Token, now: int): Row {
    row.(owner := Some(token), heartbeat := Some(now), expires := Some(now + LEASE_SECONDS))
  }

  predicate Holds(row: Row, token: Token, now: int) {
    row.owner == Some(token) && row.expires.Some? && row.expires.value > now
  }

  function Renewed(row: Row, now: int, run: Option<nat>): Row {
    var kept := row.(heartbeat := Some(now), expires := Some(now + LEASE_SECONDS));
    if run.Some? then kept.(run := run) else kept
  }

  function Released(row: Row, token: Token): Row {
    if row.owner == Some(token) then row.(owner := None, expires := None) else row
  }

  /** The shared database row, updated in place. Each method is one UPDATE and answers whether it
      changed a row. */
  class LeaseRow {
    var owner: Option<Token>
    var heartbeat: Option<int>
    var expires: Option<int>
    var run: Option<nat>

    function Value(): Row
      reads this
    {
      Row(owner, heartbeat, expires, run)
    }

    constructor ()
      ensures Value() == Unowned
    {
      owner, heartbeat, expires, run := None, None, None, None;
    }

    method Claim(token: Token, now: int) returns (changed: bool)
      modifies this
      ensures changed == Claimable(old(Value()), now)
      ensures Value() == if changed then Claimed(old(Value()), token, now) else old(Value())
    {
      changed := owner.None? || expires.None? || expires.value <= now;
      if changed {
        owner := Some(token);
        heartbeat := Some(now);
        expires := Some(now + LEASE_SECONDS);
      }
    }

    method Fence(token: Token, now: int, runId: Option<nat>) returns (changed: bool)
      modifies this
      ensures changed == Holds(old(Value()), token, now)
      ensures Value() == if changed then Renewed(old(Value()), now, runId) else old(Value())
    {
      changed := owner == Some(token) && expires.Some? && expires.value > now;
      if changed {
        heartbeat := Some(now);
        expires := Some(now + LEASE_SECONDS);
        if runId.Some? {
          run := runId;
        }
      }
    }

    method Release(token: Token)
      modifies this
      ensures Value() == Released(old(Value()), token)
    {
      if owner == Some(token) {
        owner := None;
        expires := None;
      }
    }
  }

  // ----- what a history of lease events means, independently of rows, clocks and locks

  /** `sampled` is the clock reading an update used; `at` is the real time it took effect. */
  datatype Event =
    | Claim(token: Token, sampled: int, at: int)
    | Fence(token: Token, sampled: int, at: int)
    | Release(token: Token)

  datatype Lease = Lease(holder: Token, until: int)

  function After(lease: Option<Lease>, event: Event): Option<Lease> {
    match event
    case Claim(token, sampled, _) => Some(Lease(token, sampled + LEASE_SECONDS))
    case Fence(token, sampled, _) => Some(Lease(token, sampled + LEASE_SECONDS))
    case Release(token) => if lease.Some? && lease.value.holder == token then None else lease
  }

  function Current(history: seq<Event>): Option<Lease> {
    if history == [] then None else After(Current(history[..|history| - 1]), history[|history| - 1])
  }

  function Claims(history: seq<Event>): nat {
    if history == [] then 0
    else Claims(history[..|history| - 1]) + if history[|history| - 1].Claim? then 1 else 0
  }

  /** A claim takes a fresh token and needs a free or really expired lease; a fence needs the
      lease that is in force. */
  predicate LegalNext(lease: Option<Lease>, claims: nat, event: Event) {
    match event
    case Claim(token, sampled, at) => token == claims && sampled <= at && (lease.None? || lease.value.until <= sampled)
    case Fence(token, sampled, at) => lease.Some? && lease.value.holder == token && sampled < lease.value.until && sampled <= at
    case Release(token) => token < claims
  }

  ghost predicate Legal(history: seq<Event>) {
    forall i :: 0 <= i < |history| ==> LegalNext(Current(history[..i]), Claims(history[..i]), history[i])
  }

  // ----- the machine

  datatype Phase =
    | Idle
    | ClockRead(now: int)
    | PreviousRead(now: int, missing: bool)
    | FenceRead(now: int)
    | Publishing(now: int)

  datatype Thread = Thread(token: Option<Token>, phase: Phase)

  /** `pending` is the uncommitted row of the transaction that holds the row lock. */
  datatype Pending = Pending(thread: nat, row: Row)

  datatype State = State(
    clock: int, row: Option<Row>, pending: Option<Pending>, issued: nat, threads: map<nat, Thread>, history: seq<Event>)

  function Start(clock: int): State {
    State(clock, None, None, 0, map[], [])
  }

  function ThreadOf(s: State, t: nat): Thread {
    if t in s.threads then s.threads[t] else Thread(None, Idle)
  }

  function To(s: State, t: nat, phase: Phase): State {
    s.(threads := s.threads[t := ThreadOf(s, t).(phase := phase)])
  }

  datatype Step =
    | Tick(seconds: nat)
    | ReadClock(t: nat)
    | ReadPrevious(t: nat)
    | ApplyClaim(t: nat)
    | StartHeartbeat(t: nat, heart: nat)
    | ReadForFence(t: nat)
    | ApplyFence(t: nat, run: Option<nat>)
    | Commit(t: nat)
    | Rollback(t: nat)
    | DoRelease(t: nat)
    | Crash(t: nat)

  function CommitClaim(s: State, t: nat, row: Row, now: int): State {
    s.(row := Some(Claimed(row, s.issued, now)), issued := s.issued + 1,
       threads := s.threads[t := Thread(Some(s.issued), Idle)],
       history := s.history + [Claim(s.issued, now, s.clock)])
  }

  /** A step that is not enabled changes nothing: updates wait while another transaction holds the
      row lock. */
  function Next(s: State, step: Step): State {
    match step
    case Tick(seconds) => s.(clock := s.clock + seconds)
    case ReadClock(t) => if ThreadOf(s, t).phase.Idle? then To(s, t, ClockRead(s.clock)) else s
    case ReadPrevious(t) =>
      var phase := ThreadOf(s, t).phase;
      if phase.ClockRead? then To(s, t, PreviousRead(phase.now, s.row.None?)) else s
    case ApplyClaim(t) =>
      var phase := ThreadOf(s, t).phase;
      if !phase.PreviousRead? || s.pending.Some? then s
      else if phase.missing then
        // the INSERT: a row that appeared meanwhile is an integrity error
        if s.row.Some? then To(s, t, Idle) else CommitClaim(s, t, Unowned, phase.now)
      else if s.row.Some? && Claimable(s.row.value, phase.now) then CommitClaim(s, t, s.row.value, phase.now)
      else To(s, t, Idle)
    case StartHeartbeat(t, heart) =>
      if ThreadOf(s, heart) == Thread(None, Idle) then
        s.(threads := s.threads[heart := Thread(ThreadOf(s, t).token, Idle)])
      else s
    case ReadForFence(t) =>
      if ThreadOf(s, t).phase.Idle? && ThreadOf(s, t).token.Some? then To(s, t, FenceRead(s.clock)) else s
    case ApplyFence(t, run) =>
      var thread := ThreadOf(s, t);
      if !thread.phase.FenceRead? || s.pending.Some? || thread.token.None? then s
      else if s.row.Some? && Holds(s.row.value, thread.token.value, thread.phase.now) then
        To(s, t, Publishing(thread.phase.now)).(pending := Some(Pending(t, Renewed(s.row.value, thread.phase.now, run))))
      else To(s, t, Idle)
    case Commit(t) =>
      var thread := ThreadOf(s, t);
      if s.pending.Some? && s.pending.value.thread == t && thread.phase.Publishing? && thread.token.Some? then
        To(s, t, Idle).(row := Some(s.pending.value.row), pending := None,
                        history := s.history + [Fence(thread.token.value, thread.phase.now, s.clock)])
      else s
    case Rollback(t) =>
      if s.pending.Some? && s.pending.value.thread == t then To(s, t, Idle).(pending := None) else s
    case DoRelease(t) =>
      var thread := ThreadOf(s, t);
      if thread.phase.Idle? && thread.token.Some? && s.pending.None? && s.row.Some? then
        s.(row := Some(Released(s.row.value, thread.token.value)), history := s.history + [Release(thread.token.value)])
      else s
    case Crash(t) =>
      s.(threads := s.threads - {t},
         pending := if s.pending.Some? && s.pending.value.thread == t then None else s.pending)
  }

  function Exec(s: State, steps: seq<Step>): State
    decreases steps
  {
    if steps == [] then s else Exec(Next(s, steps[0]), steps[1..])
  }

  // ----- the invariant: the row is the history's lease

  function LeaseOf(row: Option<Row>): Option<Lease> {
    if row.Some? && row.value.owner.Some? && row.value.expires.Some?
    then Some(Lease(row.value.owner.value, row.value.expires.value)) else None
  }

  predicate ThreadOk(s: State, thread: Thread) {
    && (thread.token.Some? ==> thread.token.value < s.issued)
    && (!thread.phase.Idle? ==> thread.phase.now <= s.clock)
  }

  predicate RowOk(s: State) {
    && (s.row.None? ==> s.issued == 0)
    && (s.row.Some? ==> (s.row.value.owner.None? <==> s.row.value.expires.None?))
    && (s.row.Some? && s.row.value.owner.Some? ==> s.row.value.owner.value + 1 == s.issued)
  }

  /** What the lock holder may still commit: its fence is legal now and stays so. */
  predicate PendingOk(s: State) {
    s.pending.Some? ==>
      var thread := ThreadOf(s, s.pending.value.thread);
      && thread.phase.Publishing? && thread.token.Some? && s.row.Some?
      && Holds(s.row.value, thread.token.value, thread.phase.now)
      && s.pending.value.row == Renewed(s.row.value, thread.phase.now, s.pending.value.row.run)
  }

  ghost predicate ThreadsOk(s: State) {
    forall t :: t in s.threads ==> ThreadOk(s, s.threads[t])
  }

  ghost predicate HistoryOk(s: State) {
    s.issued == Claims(s.history) && LeaseOf(s.row) == Current(s.history) && Legal(s.history)
  }

  ghost predicate Inv(s: State) {
    RowOk(s) && PendingOk(s) && ThreadsOk(s) && HistoryOk(s)
  }

  lemma LegalGrows(history: seq<Event>, event: Event)
    requires Legal(history) && LegalNext(Current(history), Claims(history), event)
    ensures Legal(history + [event])
    ensures Current(history + [event]) == After(Current(history), event)
    ensures Claims(history + [event]) == Claims(history) + if event.Claim? then 1 else 0
  {
    var longer := history + [event];
    assert longer[..|history|] == history;
    forall i | 0 <= i < |longer|
      ensures LegalNext(Current(longer[..i]), Claims(longer[..i]), longer[i])
    {
      assert i < |history| ==> longer[..i] == history[..i];
    }
  }

  lemma StepKeepsThreads(s: State, step: Step)
    requires ThreadsOk(s)
    ensures ThreadsOk(Next(s, step))
  {
    hide Holds, Claimable, Claimed, Renewed, Released;
  }

  lemma StepKeepsRow(s: State, step: Step)
    requires RowOk(s) && PendingOk(s)
    ensures RowOk(Next(s, step)) && PendingOk(Next(s, step))
  {
  }

  lemma StepKeepsHistory(s: State, step: Step)
    requires Inv(s)
    ensures HistoryOk(Next(s, step))
  {
    var n := Next(s, step);
    hide Current, Claims, Legal;
    if n.history != s.history {
      var event := n.history[|s.history|];
      assert n.history == s.history + [event];
      LegalGrows(s.history, event);
    }
  }

  lemma StepKeepsInv(s: State, step: Step)
    requires Inv(s)
    ensures Inv(Next(s, step))
  {
    hide Next, RowOk, PendingOk, ThreadsOk, HistoryOk;
    StepKeepsThreads(s, step);
    StepKeepsRow(s, step);
    StepKeepsHistory(s, step);
  }

  lemma {:induction false} RunKeepsInv(s: State, steps: seq<Step>)
    requires Inv(s)
    ensures Inv(Exec(s, steps))
    decreases steps
  {
    if steps != [] {
      StepKeepsInv(s, steps[0]);
      RunKeepsInv(Next(s, steps[0]), steps[1..]);
    }
  }

  // ----- what every run keeps

  /** Every run, under every interleaving and crash, is a legal history of a sequential lease,
      and the row always shows the lease that history leaves in force. */
  lemma RunsAreLegal(clock: int, steps: seq<Step>)
    ensures var end := Exec(Start(clock), steps);
      Legal(end.history) && LeaseOf(end.row) == Current(end.history) && end.issued == Claims(end.history)
  {
    RunKeepsInv(Start(clock), steps);
  }

  lemma {:induction false} ClaimsGrow(history: seq<Event>, i: nat)
    requires i <= |history|
    ensures Claims(history[..i]) <= Claims(history)
    decreases |history| - i
  {
    if i == |history| {
      assert history[..i] == history;
    } else {
      assert history[..i + 1][..i] == history[..i];
      ClaimsGrow(history, i + 1);
    }
  }

  /** Only the newest token can hold the lease. */
  lemma {:induction false} HolderIsNewest(history: seq<Event>)
    requires Legal(history)
    ensures Current(history).Some? ==> Current(history).value.holder + 1 == Claims(history)
  {
    if history != [] {
      var before := history[..|history| - 1];
      assert forall i :: 0 <= i < |before| ==> before[..i] == history[..i];
      HolderIsNewest(before);
    }
  }

  /** Publications never go back to an older worker: after token t is claimed, every later fence
      is by t or by a newer token. */
  lemma FencesFollowClaims(history: seq<Event>, i: nat, j: nat)
    requires Legal(history) && i < j < |history| && history[i].Claim? && history[j].Fence?
    ensures history[j].token >= history[i].token
  {
    hide Current;
    var before := history[..j];
    assert Legal(before) by {
      assert forall k :: 0 <= k < |before| ==> before[..k] == history[..k];
    }
    HolderIsNewest(before);
    assert LegalNext(Current(history[..j]), Claims(history[..j]), history[j]);
    assert LegalNext(Current(history[..i]), Claims(history[..i]), history[i]);
    assert history[..i + 1][..i] == history[..i] && before[..i + 1] == history[..i + 1];
    ClaimsGrow(before, i + 1);
  }

  /** A worker keeps the lease until its time has really passed: no claim takes effect in
      between. */
  lemma ClaimsWaitForExpiry(history: seq<Event>, i: nat)
    requires Legal(history) && i < |history| && history[i].Claim? && Current(history[..i]).Some?
    ensures Current(history[..i]).value.until <= history[i].at
  {
    assert LegalNext(Current(history[..i]), Claims(history[..i]), history[i]);
  }

  predicate PassesFence(s: State, t: nat, run: Option<nat>) {
    s.pending.None? && Next(s, ApplyFence(t, run)).pending.Some?
  }

  /** Exactly when the update of a claim succeeds: no lease is in force at its clock reading, by the
      history; a worker that saw no row needs the row still missing. */
  lemma ClaimIff(s: State, t: nat)
    requires Inv(s) && s.pending.None? && ThreadOf(s, t).phase.PreviousRead?
    ensures var phase, lease := ThreadOf(s, t).phase, Current(s.history);
      Next(s, ApplyClaim(t)).issued == s.issued + 1 <==>
        if phase.missing then s.row.None? else s.row.Some? && (lease.Some? ==> lease.value.until <= phase.now)
    ensures Next(s, ApplyClaim(t)).issued in {s.issued, s.issued + 1}
    ensures Next(s, ApplyClaim(t)).issued == s.issued ==> Next(s, ApplyClaim(t)).row == s.row && ThreadOf(Next(s, ApplyClaim(t)), t).phase.Idle?
  {
    hide Claims, Legal, Current;
  }

  /** A fence passes exactly for the worker the history leaves in charge, if its lease outlasts
      the clock reading, and then only the newest token. */
  lemma FencePassesIff(s: State, t: nat, run: Option<nat>)
    requires Inv(s) && s.pending.None? && ThreadOf(s, t).phase.FenceRead? && ThreadOf(s, t).token.Some?
    ensures PassesFence(s, t, run) <==>
      var lease := Current(s.history);
      lease.Some? && lease.value.holder == ThreadOf(s, t).token.value && lease.value.until > ThreadOf(s, t).phase.now
    ensures PassesFence(s, t, run) ==> ThreadOf(s, t).token.value + 1 == s.issued
  {
    hide Current, Claims, Legal;
  }

  /** The fence passes although the lease had really run out by the time the update lands. */
  ghost predicate PassesLate(s: State, t: nat, run: Option<nat>) {
    PassesFence(s, t, run) && Current(s.history).Some? && Current(s.history).value.until <= s.clock
  }

  /** Exactly when that happens: this token still holds the lease, and the lease ran out after the
      clock was read and no later than the update. An update that lands before the lease runs out,
      or at the very time of its reading, is never late. */
  lemma LateFenceIff(s: State, t: nat, run: Option<nat>)
    requires Inv(s) && s.pending.None? && ThreadOf(s, t).phase.FenceRead? && ThreadOf(s, t).token.Some?
    ensures var lease, now := Current(s.history), ThreadOf(s, t).phase.now;
      && (PassesLate(s, t, run) <==>
            lease.Some? && lease.value.holder == ThreadOf(s, t).token.value && now < lease.value.until <= s.clock)
      && (lease.Some? && (s.clock < lease.value.until || s.clock == now) ==> !PassesLate(s, t, run))
  {
    FencePassesIff(s, t, run);
    hide Current, PassesFence, Inv;
  }

  /** The same over a whole history: a fence lands late exactly when the lease it renews ran out
      between its clock reading and its commit. Even then the lease is its own. */
  lemma LateInHistoryIff(history: seq<Event>, i: nat)
    requires Legal(history) && i < |history| && history[i].Fence?
    ensures Current(history[..i]).Some? && Current(history[..i]).value.holder == history[i].token
    ensures var until := Current(history[..i]).value.until;
      until <= history[i].at <==> history[i].sampled < until <= history[i].at
  {
    assert LegalNext(Current(history[..i]), Claims(history[..i]), history[i]);
  }

  /** A claim succeeds only on a free or really expired lease, and then owns the row. */
  lemma TakeoverOnlyWhenFree(s: State, t: nat)
    requires Inv(s) && Next(s, ApplyClaim(t)).issued != s.issued
    ensures Current(s.history).None? || Current(s.history).value.until <= s.clock
    ensures var n := Next(s, ApplyClaim(t));
      && Current(n.history) == LeaseOf(n.row) && n.row.Some? && n.row.value.owner == Some(s.issued)
      && ThreadOf(n, t).token == Some(s.issued)
      && (exists now :: now <= s.clock && n.row.value
            == Row(Some(s.issued), Some(now), Some(now + 300), if s.row.Some? then s.row.value.run else None))
  {
    StepKeepsInv(s, ApplyClaim(t));
    hide Current, Claims, Legal;
  }

  /** What a fence that passes leaves once it is committed: the same owner, a lease of 300 seconds from
      its clock reading, and the run it names, if it names one. */
  lemma FenceLeaves(s: State, t: nat, run: Option<nat>)
    requires PassesFence(s, t, run)
    ensures var thread := ThreadOf(s, t); var n := Next(Next(s, ApplyFence(t, run)), Commit(t));
      && thread.phase.FenceRead? && s.row.Some? && n.pending.None?
      && n.row == Some(Row(s.row.value.owner, Some(thread.phase.now), Some(thread.phase.now + 300),
                           if run.Some? then run else s.row.value.run))
  {
  }

  /** What a release leaves: a free lease with the last heartbeat and run, for the owner's token;
      the row as it was for any other. */
  lemma ReleaseLeaves(s: State, t: nat)
    requires Inv(s) && ThreadOf(s, t).phase.Idle? && ThreadOf(s, t).token.Some? && s.pending.None? && s.row.Some?
    ensures var row, n := s.row.value, Next(s, DoRelease(t));
      n.row == Some(if row.owner == ThreadOf(s, t).token then Row(None, row.heartbeat, None, row.run) else row)
  {
    hide Current, Claims, Legal;
  }

  lemma {:induction false} IssuedGrows(s: State, steps: seq<Step>)
    ensures s.issued <= Exec(s, steps).issued
    decreases steps
  {
    if steps != [] {
      IssuedGrows(Next(s, steps[0]), steps[1..]);
    }
  }

  /** After a takeover the old worker is shut out of every continuation: its fence never passes,
      its commit publishes nothing and its release leaves the row as it was. */
  lemma OldTokenIsShutOut(s: State, steps: seq<Step>, t: nat, run: Option<nat>)
    requires Inv(s) && ThreadOf(Exec(s, steps), t).token.Some?
    requires ThreadOf(Exec(s, steps), t).token.value + 1 < s.issued
    ensures var end := Exec(s, steps);
      && !PassesFence(end, t, run)
      && Next(end, Commit(t)).row == end.row && Next(end, Commit(t)).history == end.history
      && Next(end, DoRelease(t)).row == end.row
  {
    RunKeepsInv(s, steps);
    IssuedGrows(s, steps);
    hide Current, Claims, Legal, Exec;
  }

  lemma ExecNone(s: State)
    ensures Exec(s, []) == s
  {
  }

  lemma ExecTwo(s: State, first: Step, second: Step, rest: seq<Step>)
    ensures Exec(s, [first, second] + rest) == Exec(Next(Next(s, first), second), rest)
  {
    hide Next;
    assert ([first, second] + rest)[1..] == [second] + rest && ([second] + rest)[1..] == rest;
  }

  /** Reading the clock before the update has one visible effect: a fence can still land, and
      extend the lease, after it has really run out. It then excludes the next claimer instead of
      sharing with it. */
  lemma StaleClockFenceStillLands()
    ensures var steps := [ReadClock(0), ReadPrevious(0)] + ([ApplyClaim(0), Tick(299)] + ([ReadForFence(0), Tick(201)]
        + ([ReadClock(1), ReadPrevious(1)] + ([ApplyFence(0, None), Commit(0)] + ([ApplyClaim(1), Tick(0)] + [])))));
      var end := Exec(Start(0), steps);
      && end.history == [Claim(0, 0, 0), Fence(0, 299, 500)] && Current(end.history[..1]) == Some(Lease(0, 300))
      && end.row == Some(Row(Some(0), Some(299), Some(599), None))
      && ThreadOf(end, 1) == Thread(None, Idle)
  {
    hide Exec;
    var s0 := Start(0);
    var s1 := Next(Next(s0, ReadClock(0)), ReadPrevious(0));
    assert s1 == State(0, None, None, 0, map[0 := Thread(None, PreviousRead(0, true))], []);
    var s2 := Next(Next(s1, ApplyClaim(0)), Tick(299));
    var mine := Some(Row(Some(0), Some(0), Some(300), None));
    assert s2 == State(299, mine, None, 1, map[0 := Thread(Some(0), Idle)], [Claim(0, 0, 0)]);
    var s3 := Next(Next(s2, ReadForFence(0)), Tick(201));
    assert s3 == State(500, mine, None, 1, map[0 := Thread(Some(0), FenceRead(299))], [Claim(0, 0, 0)]);
    var s4 := Next(Next(s3, ReadClock(1)), ReadPrevious(1));
    assert s4.threads == map[0 := Thread(Some(0), FenceRead(299)), 1 := Thread(None, PreviousRead(500, false))];
    var s5 := Next(Next(s4, ApplyFence(0, None)), Commit(0));
    assert s5.history == [Claim(0, 0, 0), Fence(0, 299, 500)];
    assert s5.row == Some(Row(Some(0), Some(299), Some(599), None));
    var s6 := Next(Next(s5, ApplyClaim(1)), Tick(0));
    ExecTwo(s5, ApplyClaim(1), Tick(0), []);
    var r5 := [ApplyClaim(1), Tick(0)] + [];
    ExecTwo(s4, ApplyFence(0, None), Commit(0), r5);
    var r4 := [ApplyFence(0, None), Commit(0)] + r5;
    ExecTwo(s3, ReadClock(1), ReadPrevious(1), r4);
    var r3 := [ReadClock(1), ReadPrevious(1)] + r4;
    ExecTwo(s2, ReadForFence(0), Tick(201), r3);
    var r2 := [ReadForFence(0), Tick(201)] + r3;
    ExecTwo(s1, ApplyClaim(0), Tick(299), r2);
    ExecTwo(s0, ReadClock(0), ReadPrevious(0), [ApplyClaim(0), Tick(299)] + r2);
    ExecNone(s6);
  }
}
