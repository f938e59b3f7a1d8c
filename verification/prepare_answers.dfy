/** `prepare_answers` for one owner and one context: an owner lock, claims with tokens, stale
    takeovers, and a finish that reads the row and writes it later. */
module PrepareAnswers {
  import opened Wrappers
  import opened AnswerCaches

  const STALE_SECONDS: int := 20

  datatype Status = Running | Ready | Stopped

  datatype Row = Row(
    status: Status, owner: Option<nat>, cache: Cache, pending: seq<Pending>, started: int, error: Option<string>)

  // ----- the row's updates

  function NewRow(token: nat, cache: Cache, pending: seq<Pending>, now: int): Row {
    Row(Running, Some(token), cache, pending, now, None)
  }

  /** Claiming an existing row leaves its stored cache alone. */
  function Reclaimed(row: Row, token: nat, pending: seq<Pending>, now: int): Row {
    row.(status := Running, owner := Some(token), pending := pending, started := now, error := None)
  }

  function Interrupted(row: Row, cache: Cache): Row {
    row.(status := Stopped, owner := None, cache := cache, pending := [], error := Some("preparation_interrupted"))
  }

  /** An error that did not change since the row was read is not written. */
  function FinishedRow(row: Row, result: Cache, error: Option<string>): Row {
    row.(status := if error.Some? then Stopped else Ready, owner := None, cache := result, pending := [],
         error := if error.Some? then error else row.error)
  }

  class Preparation {
    var status: Status
    var owner: Option<nat>
    var cache: Cache
    var pending: seq<Pending>
    var started: int
    var error: Option<string>

    function Value(): Row
      reads this
    {
      Row(status, owner, cache, pending, started, error)
    }

    constructor (token: nat, merged: Cache, asked: seq<Pending>, now: int)
      ensures Value() == NewRow(token, merged, asked, now)
    {
      status, owner, cache, pending, started, error := Running, Some(token), merged, asked, now, None;
    }

    method Reclaim(token: nat, asked: seq<Pending>, now: int)
      modifies this
      ensures Value() == Reclaimed(old(Value()), token, asked, now)
    {
      status, owner, pending := Running, Some(token), asked;
      started, error := now, None;
    }

    method Interrupt(shared: map<nat, nat>)
      modifies this
      ensures Value() == Interrupted(old(Value()),
        FailPending(MergeShared(old(cache), shared), old(pending), "preparation_interrupted"))
    {
      var failed := FailPendingKeys(MergeShared(cache, shared), pending, "preparation_interrupted");
      status, cache, error := Stopped, failed, Some("preparation_interrupted");
      owner, pending := None, [];
    }

    method Finish(result: Cache, problem: Option<string>)
      modifies this
      ensures Value() == FinishedRow(old(Value()), result, problem)
    {
      status := if problem.Some? then Stopped else Ready;
      cache := result;
      if problem.Some? {
        error := problem;
      }
      owner, pending := None, [];
    }
  }

  // ----- the machine

  /** A claim at work: its token, the request and the merged cache it started from. */
  datatype Work = Work(token: nat, fields: seq<Field>, warm: bool, cache: Cache)

  function UnknownOf(work: Work): seq<Field> {
    Unknown(work.fields, work.cache, work.warm)
  }

  function AskedOf(work: Work): seq<Pending> {
    PendingOf(UnknownOf(work), work.warm, work.cache)
  }

  function ResultFor(work: Work, outcome: Outcome): Cache {
    ResultOf(work.cache, UnknownOf(work), AskedOf(work), outcome)
  }

  function ErrorFor(work: Work, outcome: Outcome): Option<string> {
    ErrorOf(UnknownOf(work), AskedOf(work), outcome)
  }

  function SharedBy(work: Work, outcome: Outcome): map<nat, nat> {
    if ErrorFor(work, outcome).Some? then map[] else Verified(ResultFor(work, outcome), AskedOf(work))
  }

  datatype Phase =
    | Idle
    | Locked(fields: seq<Field>, warm: bool, row: Option<Row>, shared: map<nat, nat>)
    | Working(work: Work)
    | Answering(work: Work, outcome: Outcome)
    | Writing(work: Work, outcome: Outcome)

  /** `claims` records the pending keys of every model call, in order; a token is an index into
      it. */
  datatype State = State(
    row: Option<Row>, shared: map<nat, nat>, lock: Option<nat>, claims: seq<seq<Pending>>, workers: map<nat, Phase>)

  const Start: State := State(None, map[], None, [], map[])

  datatype Step =
    | LockAndRead(w: nat, fields: seq<Field>, warm: bool)
    | Decide(w: nat, now: int)
    | Answer(w: nat, outcome: Outcome)
    | FinishRead(w: nat)
    | FinishWrite(w: nat)
    | Crash(w: nat)
    | ShareElsewhere(added: map<nat, nat>)

  function PhaseOf(s: State, w: nat): Phase {
    if w in s.workers then s.workers[w] else Idle
  }

  function Go(s: State, w: nat, phase: Phase): State {
    s.(workers := s.workers[w := phase])
  }

  function CacheOf(row: Option<Row>): Cache {
    if row.Some? then row.value.cache else Empty
  }

  predicate IsRunning(row: Option<Row>) {
    row.Some? && row.value.status == Running
  }

  predicate Owns(s: State, token: nat) {
    IsRunning(s.row) && s.row.value.owner == Some(token)
  }

  function ClaimWork(s: State, phase: Phase): Work
    requires phase.Locked?
  {
    Work(|s.claims|, phase.fields, phase.warm, MergeShared(CacheOf(phase.row), phase.shared))
  }

  function TakenOver(phase: Phase): Cache
    requires phase.Locked? && phase.row.Some?
  {
    FailPending(MergeShared(phase.row.value.cache, phase.shared), phase.row.value.pending, "preparation_interrupted")
  }

  function Claimed(s: State, w: nat, phase: Phase, now: int): State
    requires phase.Locked?
  {
    var work := ClaimWork(s, phase);
    var row := if s.row.None? then NewRow(work.token, work.cache, AskedOf(work), now)
               else Reclaimed(s.row.value, work.token, AskedOf(work), now);
    Go(s, w, Working(work)).(row := Some(row), claims := s.claims + [AskedOf(work)], lock := None)
  }

  /** The locked transaction ends: wait for a live call, take over a stale one, or claim what is
      still needed. */
  function Decided(s: State, w: nat, phase: Phase, now: int): State
    requires phase.Locked?
  {
    var free := Go(s, w, Idle).(lock := None);
    if IsRunning(phase.row) then
      if now - phase.row.value.started <= STALE_SECONDS || s.row.None? then free
      else free.(row := Some(Interrupted(s.row.value, TakenOver(phase))))
    else
      var work := ClaimWork(s, phase);
      if UnknownOf(work) == [] && !NeedsCommon(work.fields, work.cache, work.warm) then free
      else Claimed(s, w, phase, now)
  }

  /** The finishing write; saving shared mappings waits for the owner lock. */
  function Written(s: State, w: nat, work: Work, outcome: Outcome): State {
    var verified := SharedBy(work, outcome);
    if s.row.None? || (verified != map[] && s.lock.Some?) then s
    else Go(s, w, Idle).(row := Some(FinishedRow(s.row.value, ResultFor(work, outcome), ErrorFor(work, outcome))),
                         shared := s.shared + verified)
  }

  function Next(s: State, step: Step): State {
    match step
    case LockAndRead(w, fields, warm) =>
      if PhaseOf(s, w).Idle? && s.lock.None? then Go(s, w, Locked(fields, warm, s.row, s.shared)).(lock := Some(w)) else s
    case Decide(w, now) => if PhaseOf(s, w).Locked? then Decided(s, w, PhaseOf(s, w), now) else s
    case Answer(w, outcome) => if PhaseOf(s, w).Working? then Go(s, w, Answering(PhaseOf(s, w).work, outcome)) else s
    case FinishRead(w) =>
      var phase := PhaseOf(s, w);
      if !phase.Answering? then s
      else Go(s, w, if Owns(s, phase.work.token) then Writing(phase.work, phase.outcome) else Idle)
    case FinishWrite(w) =>
      var phase := PhaseOf(s, w);
      if phase.Writing? then Written(s, w, phase.work, phase.outcome) else s
    case Crash(w) => s.(workers := s.workers - {w}, lock := if s.lock == Some(w) then None else s.lock)
    case ShareElsewhere(added) => if s.lock.None? then s.(shared := s.shared + added) else s
  }

  function Exec(s: State, steps: seq<Step>): State
    decreases steps
  {
    if steps == [] then s else Exec(Next(s, steps[0]), steps[1..])
  }

  // ----- quiet and harmless finishes

  /** A finishing write is quiet when it lands while the row is still running under its token. */
  predicate Quiet(s: State, step: Step) {
    step.FinishWrite? && PhaseOf(s, step.w).Writing? ==> Owns(s, PhaseOf(s, step.w).work.token)
  }

  predicate QuietRun(s: State, steps: seq<Step>)
    decreases steps
  {
    steps != [] ==> Quiet(s, steps[0]) && QuietRun(Next(s, steps[0]), steps[1..])
  }

  predicate CanWrite(s: State, w: nat) {
    PhaseOf(s, w).Writing? && s.row.Some? && (s.lock.None? || SharedBy(PhaseOf(s, w).work, PhaseOf(s, w).outcome) == map[])
  }

  predicate InShared(shared: map<nat, nat>, p: Pending) {
    p.Question? && p.key in shared
  }

  /** Whatever was asked after the claim with this token already has a shared mapping. */
  ghost predicate LaterClaimsShared(s: State, token: nat) {
    forall i, p :: token < i < |s.claims| && p in s.claims[i] ==> InShared(s.shared, p)
  }

  /** A finishing write, quiet or late, is harmless when everything asked after its claim is shared. */
  ghost predicate Harmless(s: State, step: Step) {
    step.FinishWrite? && CanWrite(s, step.w) ==> LaterClaimsShared(s, PhaseOf(s, step.w).work.token)
  }

  ghost predicate HarmlessRun(s: State, steps: seq<Step>)
    decreases steps
  {
    steps != [] ==> Harmless(s, steps[0]) && HarmlessRun(Next(s, steps[0]), steps[1..])
  }

  // ----- the invariant of harmless runs

  predicate InReach(cache: Cache, shared: map<nat, nat>, p: Pending) {
    Cached(cache, p) || InShared(shared, p)
  }

  predicate Settled(s: State, p: Pending) {
    s.row.Some? && InReach(s.row.value.cache, s.shared, p)
  }

  predicate AskedBefore(claims: seq<seq<Pending>>, n: nat, p: Pending) {
    exists i :: 0 <= i < n && i < |claims| && p in claims[i]
  }

  /** Keys get into caches only by being asked or shared. */
  predicate Known(claims: seq<seq<Pending>>, n: nat, shared: map<nat, nat>, p: Pending) {
    AskedBefore(claims, n, p) || InShared(shared, p)
  }

  predicate RowOk(s: State) {
    && (s.row.None? ==> s.claims == [])
    && (IsRunning(s.row) ==> s.claims != [] && s.row.value.owner == Some(|s.claims| - 1) && s.row.value.pending == s.claims[|s.claims| - 1])
    && (s.row.Some? && !IsRunning(s.row) ==> s.row.value.owner == None && s.row.value.pending == [])
  }

  /** The number of claims that are over. */
  function Over(s: State): nat {
    if IsRunning(s.row) && s.claims != [] then |s.claims| - 1 else |s.claims|
  }

  ghost predicate RowKnown(s: State) {
    forall p :: s.row.Some? && Cached(s.row.value.cache, p) ==> Known(s.claims, Over(s), s.shared, p)
  }

  /** Every key ever asked is settled or still pending. */
  ghost predicate Covered(s: State) {
    forall p :: AskedBefore(s.claims, |s.claims|, p) ==> Settled(s, p) || (s.row.Some? && p in s.row.value.pending)
  }

  ghost predicate Disjoint(claims: seq<seq<Pending>>) {
    forall i, j, p :: 0 <= i < j < |claims| && p in claims[i] ==> p !in claims[j]
  }

  /** A claim's cache holds everything asked before it, and nothing that was not asked or shared. */
  ghost predicate WorkOk(s: State, work: Work) {
    && work.token < |s.claims| && s.claims[work.token] == AskedOf(work)
    && (forall p :: AskedBefore(s.claims, work.token, p) ==> InReach(work.cache, s.shared, p))
    && (forall p :: Cached(work.cache, p) ==> Known(s.claims, work.token, s.shared, p))
  }

  predicate InTakeover(phase: Phase, p: Pending)
    requires phase.Locked? && phase.row.Some?
  {
    InReach(phase.row.value.cache, phase.shared, p) || p in phase.row.value.pending
  }

  /** What the lock holder saw still accounts for everything asked so far, even if a late write has
      replaced the row since. */
  ghost predicate LockedOk(s: State, phase: Phase)
    requires phase.Locked?
  {
    && phase.shared == s.shared
    && (phase.row.Some? <==> s.row.Some?)
    && (!IsRunning(phase.row) ==> !IsRunning(s.row))
    && (phase.row.Some? ==> phase.row.value.pending == if IsRunning(phase.row) && s.claims != [] then s.claims[|s.claims| - 1] else [])
    && (phase.row.Some? ==> forall p :: AskedBefore(s.claims, |s.claims|, p) ==> InTakeover(phase, p))
    && (phase.row.Some? ==> forall p :: Cached(phase.row.value.cache, p) ==> Known(s.claims, |s.claims|, s.shared, p))
  }

  ghost predicate PhaseOk(s: State, w: nat, phase: Phase) {
    match phase
    case Idle => true
    case Locked(_, _, _, _) => s.lock == Some(w) && LockedOk(s, phase)
    case Working(work) => WorkOk(s, work)
    case Answering(work, _) => WorkOk(s, work)
    case Writing(work, _) => WorkOk(s, work)
  }

  ghost predicate WorkersOk(s: State) {
    forall w :: w in s.workers ==> PhaseOk(s, w, s.workers[w])
  }

  predicate AtWork(phase: Phase) {
    phase.Working? || phase.Answering? || phase.Writing?
  }

  ghost predicate Inv(s: State) {
    RowOk(s) && RowKnown(s) && Covered(s) && Disjoint(s.claims) && WorkersOk(s)
  }

  // ----- the steps that write

  lemma AskedGrows(claims: seq<seq<Pending>>, more: seq<Pending>, n: nat, p: Pending)
    ensures n <= |claims| ==> (AskedBefore(claims + [more], n, p) <==> AskedBefore(claims, n, p))
    ensures AskedBefore(claims + [more], |claims| + 1, p) <==> AskedBefore(claims, |claims|, p) || p in more
  {
    var longer := claims + [more];
    assert forall i :: 0 <= i < |claims| ==> longer[i] == claims[i];
    assert longer[|claims|] == more;
    if p in more {
      assert p in longer[|claims|];
    }
    if AskedBefore(claims, |claims|, p) {
      var i :| 0 <= i < |claims| && p in claims[i];
      assert p in longer[i];
    }
    if n <= |claims| && AskedBefore(claims, n, p) {
      var i :| 0 <= i < n && i < |claims| && p in claims[i];
      assert p in longer[i];
    }
  }

  lemma TakenOverCaches(phase: Phase, p: Pending)
    requires phase.Locked? && phase.row.Some?
    ensures Cached(TakenOver(phase), p) <==> InTakeover(phase, p)
  {
    var merged := MergeShared(phase.row.value.cache, phase.shared);
    MergeSharedCaches(phase.row.value.cache, phase.shared, p);
    FailPendingCaches(merged, phase.row.value.pending, "preparation_interrupted", p);
  }

  lemma ResultForCaches(work: Work, outcome: Outcome, p: Pending)
    ensures Cached(ResultFor(work, outcome), p) <==> Cached(work.cache, p) || p in AskedOf(work)
  {
    ResultCaches(work.cache, work.fields, work.warm, outcome, p);
  }

  lemma AskedIsUncached(work: Work, p: Pending)
    requires p in AskedOf(work)
    ensures !Cached(work.cache, p)
  {
    PendingIsUncached(work.fields, work.warm, work.cache, p);
  }

  /** A claim asks nothing that was ever asked before. */
  lemma ClaimIsNew(s: State, w: nat, p: Pending)
    requires Inv(s) && w in s.workers && s.workers[w].Locked? && !IsRunning(s.workers[w].row)
    requires p in AskedOf(ClaimWork(s, s.workers[w]))
    ensures !AskedBefore(s.claims, |s.claims|, p)
  {
    var phase := s.workers[w];
    var work := ClaimWork(s, phase);
    assert PhaseOk(s, w, phase);
    AskedIsUncached(work, p);
    MergeSharedCaches(CacheOf(phase.row), phase.shared, p);
  }

  /** What a step does for the work in progress of other requests: claims and shared mappings are
      only added. */
  ghost predicate Extends(s: State, n: State) {
    && (n.claims == s.claims || exists more :: n.claims == s.claims + [more])
    && (forall k :: k in s.shared ==> k in n.shared)
  }

  lemma StepExtends(s: State, step: Step)
    ensures Extends(s, Next(s, step))
  {
    hide AskedOf, UnknownOf, ResultFor, ErrorFor, SharedBy, TakenOver;
  }

  lemma AskedStays(s: State, n: State, k: nat, p: Pending)
    requires Extends(s, n) && k <= |s.claims|
    ensures AskedBefore(n.claims, k, p) <==> AskedBefore(s.claims, k, p)
  {
    if n.claims != s.claims {
      var more :| n.claims == s.claims + [more];
      AskedGrows(s.claims, more, k, p);
    }
  }

  lemma WorkStaysOk(s: State, n: State, work: Work)
    requires WorkOk(s, work) && Extends(s, n)
    ensures WorkOk(n, work)
  {
    hide AskedOf, AskedBefore;
    forall p
      ensures AskedBefore(n.claims, work.token, p) <==> AskedBefore(s.claims, work.token, p)
    {
      AskedStays(s, n, work.token, p);
    }
  }

  /** The lock holder's view survives any step of others: they claim and share nothing. */
  lemma LockedStaysOk(s: State, n: State, phase: Phase)
    requires phase.Locked? && LockedOk(s, phase)
    requires n.claims == s.claims && n.shared == s.shared && (n.row.Some? <==> s.row.Some?)
    requires !IsRunning(s.row) ==> !IsRunning(n.row)
    ensures LockedOk(n, phase)
  {
    hide AskedBefore;
  }

  /** Other requests are undisturbed by a step that keeps the lock, or that ends it. */
  lemma OthersStayOk(s: State, n: State, w: nat)
    requires WorkersOk(s) && Extends(s, n)
    requires forall v :: v in n.workers && v != w ==> v in s.workers && n.workers[v] == s.workers[v] && StaysLocked(s, n, s.workers[v])
    requires w in n.workers ==> PhaseOk(n, w, n.workers[w])
    ensures WorkersOk(n)
  {
    hide WorkOk, LockedOk;
    forall v | v in n.workers
      ensures PhaseOk(n, v, n.workers[v])
    {
      if v != w {
        assert PhaseOk(s, v, s.workers[v]);
        if AtWork(s.workers[v]) {
          WorkStaysOk(s, n, s.workers[v].work);
        } else if s.workers[v].Locked? {
          LockedStaysOk(s, n, s.workers[v]);
        }
      }
    }
  }

  predicate StaysLocked(s: State, n: State, phase: Phase) {
    phase.Locked? ==>
      n.lock == s.lock && n.claims == s.claims && n.shared == s.shared && (n.row.Some? <==> s.row.Some?)
      && (!IsRunning(s.row) ==> !IsRunning(n.row))
  }

  predicate CanDecide(s: State, w: nat) {
    w in s.workers && s.workers[w].Locked?
  }

  lemma LockIsExclusive(s: State, w: nat, v: nat)
    requires WorkersOk(s) && CanDecide(s, w) && v in s.workers && v != w
    ensures !s.workers[v].Locked?
  {
    hide LockedOk, WorkOk;
    assert PhaseOk(s, w, s.workers[w]);
    assert PhaseOk(s, v, s.workers[v]);
  }

  /** The row part of the invariant depends on row, claims and shared mappings only. */
  lemma SameRowStaysOk(s: State, n: State)
    requires RowOk(s) && RowKnown(s) && Covered(s) && Disjoint(s.claims)
    requires n.row == s.row && n.claims == s.claims && forall k :: k in s.shared ==> k in n.shared
    ensures RowOk(n) && RowKnown(n) && Covered(n) && Disjoint(n.claims)
  {
    hide AskedBefore, Disjoint;
    forall p | AskedBefore(n.claims, |n.claims|, p)
      ensures Settled(n, p) || (n.row.Some? && p in n.row.value.pending)
    {
      assert Settled(s, p) || (s.row.Some? && p in s.row.value.pending);
    }
  }

  lemma LockSees(s: State, w: nat, fields: seq<Field>, warm: bool)
    requires Inv(s)
    ensures LockedOk(s, Locked(fields, warm, s.row, s.shared))
  {
    hide AskedBefore, Disjoint, WorkersOk;
    var phase := Locked(fields, warm, s.row, s.shared);
    if s.row.Some? {
      forall p | AskedBefore(s.claims, |s.claims|, p)
        ensures InTakeover(phase, p)
      {
        assert Settled(s, p) || p in s.row.value.pending;
      }
      forall p | Cached(s.row.value.cache, p)
        ensures Known(s.claims, |s.claims|, s.shared, p)
      {
        AskedLater(s.claims, Over(s), |s.claims|, p);
      }
    }
  }

  lemma AskedLater(claims: seq<seq<Pending>>, k: nat, n: nat, p: Pending)
    requires k <= n
    ensures AskedBefore(claims, k, p) ==> AskedBefore(claims, n, p)
  {
  }

  /** Steps that write neither the row nor the claims. */
  lemma ReadingKeepsInv(s: State, step: Step)
    requires Inv(s) && (step.LockAndRead? || step.Answer? || step.FinishRead? || step.Crash?)
    ensures Inv(Next(s, step))
  {
    var n := Next(s, step);
    SameRowStaysOk(s, n);
    hide AskedOf, AskedBefore, Disjoint, Covered, RowKnown, RowOk, WorkOk, LockedOk;
    if step.w in n.workers {
      assert step.w in s.workers ==> PhaseOk(s, step.w, s.workers[step.w]);
      ReaderStaysOk(s, step);
    }
    forall v | v in n.workers && v != step.w
      ensures v in s.workers && n.workers[v] == s.workers[v] && StaysLocked(s, n, s.workers[v])
    {
      assert PhaseOk(s, v, s.workers[v]);
    }
    OthersStayOk(s, n, step.w);
  }

  lemma ReaderStaysOk(s: State, step: Step)
    requires Inv(s) && (step.LockAndRead? || step.Answer? || step.FinishRead?) && step.w in Next(s, step).workers
    ensures PhaseOk(Next(s, step), step.w, Next(s, step).workers[step.w])
  {
    var n := Next(s, step);
    hide AskedOf, AskedBefore, Disjoint, Covered, RowKnown, RowOk, WorkOk, LockedOk;
    if step.w in s.workers {
      assert PhaseOk(s, step.w, s.workers[step.w]);
      if AtWork(s.workers[step.w]) {
        WorkStaysOk(s, n, s.workers[step.w].work);
      }
    }
    if step.LockAndRead? && n != s {
      LockSees(s, step.w, step.fields, step.warm);
      LockedStaysOk(s, n, n.workers[step.w]);
    } else if step.w in s.workers && s.workers[step.w].Locked? {
      LockedStaysOk(s, n, s.workers[step.w]);
    }
  }

  lemma SharingKeepsInv(s: State, added: map<nat, nat>)
    requires Inv(s)
    ensures Inv(Next(s, ShareElsewhere(added)))
  {
    var n := Next(s, ShareElsewhere(added));
    SameRowStaysOk(s, n);
    hide AskedOf, AskedBefore, Disjoint, Covered, RowKnown, RowOk, WorkOk, LockedOk;
    forall w | w in n.workers
      ensures PhaseOk(n, w, n.workers[w])
    {
      assert PhaseOk(s, w, s.workers[w]);
      if AtWork(s.workers[w]) {
        WorkStaysOk(s, n, s.workers[w].work);
      } else if s.workers[w].Locked? {
        LockedStaysOk(s, n, s.workers[w]);
      }
    }
  }

  /** The lock is released: nobody else is in the locked section. */
  lemma ReleaseKeepsWorkers(s: State, n: State, w: nat)
    requires WorkersOk(s) && CanDecide(s, w) && Extends(s, n)
    requires n.workers.Keys == s.workers.Keys && forall v :: v in n.workers && v != w ==> n.workers[v] == s.workers[v]
    requires w in n.workers ==> PhaseOk(n, w, n.workers[w])
    ensures WorkersOk(n)
  {
    hide WorkersOk, WorkOk, LockedOk, PhaseOk;
    forall v | v in s.workers && v != w
      ensures !s.workers[v].Locked?
    {
      LockIsExclusive(s, w, v);
    }
    OthersStayOk(s, n, w);
  }

  lemma TakeoverKeepsInv(s: State, w: nat, now: int)
    requires Inv(s) && CanDecide(s, w) && IsRunning(s.workers[w].row)
    ensures Inv(Next(s, Decide(w, now)))
  {
    hide AskedOf, AskedBefore, Disjoint, TakenOver, WorkOk;
    var n, phase := Next(s, Decide(w, now)), s.workers[w];
    assert PhaseOk(s, w, phase);
    if n.row == s.row {
      SameRowStaysOk(s, n);
    } else {
      forall p
        ensures AskedBefore(n.claims, |n.claims|, p) ==> Settled(n, p)
        ensures Cached(n.row.value.cache, p) ==> Known(n.claims, Over(n), n.shared, p)
      {
        TakenOverCaches(phase, p);
        if p in phase.row.value.pending {
          AskedThen(s.claims, |s.claims| - 1, p);
        }
      }
    }
    hide Covered, RowKnown, LockedOk;
    ReleaseKeepsWorkers(s, n, w);
  }

  lemma ClaimKeepsInv(s: State, w: nat, now: int)
    requires Inv(s) && CanDecide(s, w) && !IsRunning(s.workers[w].row)
    ensures Inv(Claimed(s, w, s.workers[w], now))
  {
    var phase := s.workers[w];
    var n, work := Claimed(s, w, phase, now), ClaimWork(s, phase);
    ClaimedIs(s, w, now);
    assert PhaseOk(s, w, phase);
    hide AskedOf, AskedBefore, Claimed, MergeShared, WorkersOk;
    forall p
      ensures AskedBefore(n.claims, |n.claims|, p) <==> AskedBefore(s.claims, |s.claims|, p) || p in AskedOf(work)
      ensures AskedBefore(n.claims, |s.claims|, p) <==> AskedBefore(s.claims, |s.claims|, p)
      ensures Cached(work.cache, p) <==> InReach(CacheOf(phase.row), s.shared, p)
    {
      AskedGrows(s.claims, AskedOf(work), |s.claims|, p);
      MergeSharedCaches(CacheOf(phase.row), s.shared, p);
    }
    forall i, j, p | 0 <= i < j < |n.claims| && p in n.claims[i]
      ensures p !in n.claims[j]
    {
      if j == |s.claims| && p in n.claims[j] {
        AskedThen(s.claims, i, p);
        ClaimIsNew(s, w, p);
      }
    }
    assert Disjoint(n.claims);
    NoneAsked(s.claims);
    assert WorkOk(n, work);
    assert RowOk(n) && RowKnown(n) && Covered(n);
    hide Covered, Disjoint, WorkOk, RowKnown, RowOk, LockedOk;
    assert n.claims == s.claims + [AskedOf(work)];
    ReleaseKeepsWorkers(s, n, w);
  }

  lemma NoneAsked(claims: seq<seq<Pending>>)
    ensures claims == [] ==> forall p :: !AskedBefore(claims, |claims|, p)
  {
  }

  lemma AskedThen(claims: seq<seq<Pending>>, i: nat, p: Pending)
    requires i < |claims| && p in claims[i]
    ensures AskedBefore(claims, |claims|, p)
  {
  }

  lemma ClaimedIs(s: State, w: nat, now: int)
    requires Inv(s) && CanDecide(s, w) && !IsRunning(s.workers[w].row)
    ensures var n, work := Claimed(s, w, s.workers[w], now), ClaimWork(s, s.workers[w]);
      && n.claims == s.claims + [AskedOf(work)] && n.shared == s.shared && n.lock.None?
      && n.workers == s.workers[w := Working(work)] && n.row.Some?
      && n.row.value.status == Running && n.row.value.owner == Some(|s.claims|) && n.row.value.pending == AskedOf(work)
      && n.row.value.cache == if s.row.None? then work.cache else s.row.value.cache
    ensures s.workers[w].shared == s.shared && !IsRunning(s.row)
  {
    hide AskedOf, Covered, Disjoint, RowKnown;
    assert PhaseOk(s, w, s.workers[w]);
  }

  /** After a finishing write, exactly the writer's keys and the shared ones are settled. */
  lemma WriteSettles(s: State, w: nat)
    requires CanWrite(s, w)
    ensures var n, work := Next(s, FinishWrite(w)), s.workers[w].work;
      && n.claims == s.claims && n.row.Some? && !IsRunning(n.row) && n.row.value.pending == [] && n.row.value.owner == None
      && n.workers == s.workers[w := Idle] && n.lock == s.lock && (s.lock.Some? ==> n.shared == s.shared)
      && (forall k :: k in s.shared ==> k in n.shared)
      && (forall p :: Cached(n.row.value.cache, p) <==> Cached(work.cache, p) || p in AskedOf(work))
      && (forall p :: Settled(n, p) <==> InReach(work.cache, s.shared, p) || p in AskedOf(work))
  {
    var n, work, outcome := Next(s, FinishWrite(w)), s.workers[w].work, s.workers[w].outcome;
    hide AskedOf, ResultFor, ErrorFor;
    forall p
      ensures Cached(n.row.value.cache, p) <==> Cached(work.cache, p) || p in AskedOf(work)
      ensures Settled(n, p) <==> InReach(work.cache, s.shared, p) || p in AskedOf(work)
    {
      ResultForCaches(work, outcome, p);
    }
  }

  /** The finishing write covers everything asked exactly when it is harmless. */
  lemma WriteCoversIff(s: State, w: nat)
    requires Inv(s) && CanWrite(s, w)
    ensures Covered(Next(s, FinishWrite(w))) <==> LaterClaimsShared(s, s.workers[w].work.token)
  {
    hide LockedOk, RowOk, RowKnown, WorkersOk, PhaseOk, Next;
    if Covered(Next(s, FinishWrite(w))) {
      CoveringNeedsShared(s, w);
    }
    if LaterClaimsShared(s, s.workers[w].work.token) {
      SharedIsEnough(s, w);
    }
  }

  /** What a later claim asked is not among the writer's own keys. */
  lemma LaterIsNotMine(s: State, work: Work, i: nat, p: Pending)
    requires Disjoint(s.claims) && WorkOk(s, work) && work.token < i < |s.claims| && p in s.claims[i]
    ensures p !in AskedOf(work) && (Cached(work.cache, p) ==> InShared(s.shared, p))
  {
    hide AskedOf;
    assert p !in s.claims[work.token];
  }

  lemma CoveringNeedsShared(s: State, w: nat)
    requires Inv(s) && CanWrite(s, w) && Covered(Next(s, FinishWrite(w)))
    ensures LaterClaimsShared(s, s.workers[w].work.token)
  {
    var n, work := Next(s, FinishWrite(w)), s.workers[w].work;
    WriteSettles(s, w);
    assert PhaseOk(s, w, s.workers[w]);
    hide Next, AskedOf, SharedBy, ResultFor, ErrorFor, Settled, LockedOk, WorkersOk, RowOk, RowKnown, WorkOk, Disjoint;
    forall i, p | work.token < i < |s.claims| && p in s.claims[i]
      ensures InShared(s.shared, p)
    {
      AskedThen(s.claims, i, p);
      LaterIsNotMine(s, work, i, p);
    }
  }

  lemma SharedIsEnough(s: State, w: nat)
    requires Inv(s) && CanWrite(s, w) && LaterClaimsShared(s, s.workers[w].work.token)
    ensures Covered(Next(s, FinishWrite(w)))
  {
    var n, work := Next(s, FinishWrite(w)), s.workers[w].work;
    WriteSettles(s, w);
    assert PhaseOk(s, w, s.workers[w]);
    hide Next, AskedOf, SharedBy, ResultFor, ErrorFor, Settled, LockedOk, WorkersOk, RowOk, RowKnown, Disjoint;
    forall p | AskedBefore(n.claims, |n.claims|, p)
      ensures Settled(n, p)
    {
      var i :| 0 <= i < |s.claims| && p in s.claims[i];
      if i < work.token {
        assert AskedBefore(s.claims, work.token, p);
      }
    }
  }

  /** The harmless finishing write, quiet or late. */
  lemma FinishKeepsInv(s: State, w: nat)
    requires Inv(s) && CanWrite(s, w) && LaterClaimsShared(s, s.workers[w].work.token)
    ensures Inv(Next(s, FinishWrite(w)))
  {
    var n, work := Next(s, FinishWrite(w)), s.workers[w].work;
    WriteSettles(s, w);
    WriteCoversIff(s, w);
    assert PhaseOk(s, w, s.workers[w]);
    hide AskedOf, AskedBefore, Disjoint, ResultFor, ErrorFor, SharedBy, Covered, LaterClaimsShared, Next, CanWrite;
    forall p | Cached(n.row.value.cache, p)
      ensures Known(n.claims, |n.claims|, n.shared, p)
    {
      AskedLater(s.claims, work.token, |s.claims|, p);
      if p in AskedOf(work) {
        AskedThen(s.claims, work.token, p);
      }
    }
    assert RowOk(n) && RowKnown(n);
    hide RowOk, RowKnown, WorkOk, LockedOk;
    forall v | v in n.workers && v != w
      ensures v in s.workers && n.workers[v] == s.workers[v] && StaysLocked(s, n, s.workers[v])
    {
      assert PhaseOk(s, v, s.workers[v]);
    }
    OthersStayOk(s, n, w);
  }

  lemma StepKeepsInv(s: State, step: Step)
    requires Inv(s) && Harmless(s, step)
    ensures Inv(Next(s, step))
  {
    hide Inv, Decided, LaterClaimsShared, Written, SharedBy;
    match step
    case LockAndRead(_, _, _) => ReadingKeepsInv(s, step);
    case Answer(_, _) => ReadingKeepsInv(s, step);
    case FinishRead(_) => ReadingKeepsInv(s, step);
    case Crash(_) => ReadingKeepsInv(s, step);
    case ShareElsewhere(added) => SharingKeepsInv(s, added);
    case FinishWrite(w) =>
      if CanWrite(s, w) {
        FinishKeepsInv(s, w);
      } else {
        BlockedWrite(s, w);
      }
    case Decide(w, now) =>
      if PhaseOf(s, w).Locked? {
        DecideKeepsInv(s, w, now);
      }
  }

  lemma BlockedWrite(s: State, w: nat)
    requires !CanWrite(s, w)
    ensures Next(s, FinishWrite(w)) == s
  {
    hide SharedBy;
  }

  lemma DecideKeepsInv(s: State, w: nat, now: int)
    requires Inv(s) && CanDecide(s, w)
    ensures Inv(Next(s, Decide(w, now)))
  {
    hide Claimed, AskedOf, Inv;
    var phase := s.workers[w];
    if IsRunning(phase.row) {
      TakeoverKeepsInv(s, w, now);
    } else if Next(s, Decide(w, now)) == Claimed(s, w, phase, now) {
      ClaimKeepsInv(s, w, now);
    } else {
      FreeKeepsInv(s, w);
    }
  }

  lemma FreeKeepsInv(s: State, w: nat)
    requires Inv(s) && CanDecide(s, w)
    ensures Inv(Go(s, w, Idle).(lock := None))
  {
    var n := Go(s, w, Idle).(lock := None);
    SameRowStaysOk(s, n);
    hide AskedOf, AskedBefore, Disjoint, WorkOk, Covered, RowKnown, RowOk, LockedOk;
    ReleaseKeepsWorkers(s, n, w);
  }

  lemma {:induction false} RunKeepsInv(s: State, steps: seq<Step>)
    requires Inv(s) && HarmlessRun(s, steps)
    ensures Inv(Exec(s, steps))
    decreases steps
  {
    hide Next, Inv, Harmless;
    if steps != [] {
      StepKeepsInv(s, steps[0]);
      RunKeepsInv(Next(s, steps[0]), steps[1..]);
    }
  }

  lemma QuietIsHarmless(s: State, step: Step)
    requires Inv(s) && Quiet(s, step)
    ensures Harmless(s, step)
  {
  }

  /** Quiet runs are harmless. */
  lemma {:induction false} QuietRunIsHarmless(s: State, steps: seq<Step>)
    requires Inv(s) && QuietRun(s, steps)
    ensures HarmlessRun(s, steps)
    decreases steps
  {
    hide Next, Inv, Harmless, Quiet;
    if steps != [] {
      QuietIsHarmless(s, steps[0]);
      StepKeepsInv(s, steps[0]);
      QuietRunIsHarmless(Next(s, steps[0]), steps[1..]);
    }
  }

  // ----- what harmless runs keep

  lemma StartIsOk()
    ensures Inv(Start)
  {
  }

  /** Each question is pending in at most one model call, over all runs whose late writes, if any,
      are harmless. */
  lemma PendingOnce(steps: seq<Step>, i: nat, j: nat, p: Pending)
    requires HarmlessRun(Start, steps) && i < j < |Exec(Start, steps).claims|
    requires p in Exec(Start, steps).claims[i]
    ensures p !in Exec(Start, steps).claims[j]
  {
    StartIsOk();
    hide HarmlessRun, Exec;
    RunKeepsInv(Start, steps);
  }

  /** In particular when every finish is quiet. */
  lemma PendingOnceIfQuiet(steps: seq<Step>, i: nat, j: nat, p: Pending)
    requires QuietRun(Start, steps) && i < j < |Exec(Start, steps).claims|
    requires p in Exec(Start, steps).claims[i]
    ensures p !in Exec(Start, steps).claims[j]
  {
    StartIsOk();
    hide HarmlessRun, QuietRun, Exec, Inv;
    QuietRunIsHarmless(Start, steps);
    PendingOnce(steps, i, j, p);
  }

  /** Each exit from `running` leaves every pending key in the stored cache, unless a late write
      of an older claim ended it; then the key is shared. */
  lemma ExitCachesPending(s: State, step: Step, p: Pending)
    requires Inv(s) && Harmless(s, step) && IsRunning(s.row) && !IsRunning(Next(s, step).row)
    requires p in s.row.value.pending
    ensures Settled(Next(s, step), p)
    ensures Quiet(s, step) ==> Cached(Next(s, step).row.value.cache, p)
  {
    hide AskedOf, Disjoint, ResultFor, TakenOver, RowKnown;
    match step
    case FinishWrite(w) =>
      WriteSettles(s, w);
      assert PhaseOk(s, w, s.workers[w]);
      hide Next;
      assert p in s.claims[|s.claims| - 1];
    case Decide(w, _) =>
      assert PhaseOk(s, w, s.workers[w]);
      TakenOverCaches(s.workers[w], p);
    case _ =>
  }

  /** Settled keys stay settled. */
  lemma StepKeepsSettled(s: State, step: Step, p: Pending)
    requires Inv(s) && Harmless(s, step) && Settled(s, p)
    ensures Settled(Next(s, step), p)
  {
    var n := Next(s, step);
    StepKeepsInv(s, step);
    StepExtends(s, step);
    RunsOnlyByClaim(s, step);
    hide Next, WorkersOk, Harmless;
    if !InShared(s.shared, p) {
      assert Known(s.claims, Over(s), s.shared, p);
      var i :| 0 <= i < Over(s) && p in s.claims[i];
      AskedStays(s, n, |s.claims|, p);
      AskedLater(s.claims, Over(s), |s.claims|, p);
      AskedLater(n.claims, |s.claims|, |n.claims|, p);
      assert n.claims[i] == s.claims[i];
    }
  }

  lemma RunsOnlyByClaim(s: State, step: Step)
    ensures var n := Next(s, step); IsRunning(n.row) && n.claims == s.claims ==> IsRunning(s.row)
  {
    hide AskedOf, UnknownOf, ResultFor, ErrorFor, SharedBy, TakenOver;
  }

  lemma {:induction false} SettledForever(s: State, steps: seq<Step>, p: Pending)
    requires Inv(s) && HarmlessRun(s, steps) && Settled(s, p)
    ensures Settled(Exec(s, steps), p)
    decreases steps
  {
    hide Next, Inv, Settled, Harmless;
    if steps != [] {
      StepKeepsInv(s, steps[0]);
      StepKeepsSettled(s, steps[0], p);
      SettledForever(Next(s, steps[0]), steps[1..], p);
    }
  }

  /** Shared mappings are never lost, in any run at all. */
  lemma {:induction false} SharedOnlyGrows(s: State, steps: seq<Step>, key: nat)
    requires key in s.shared
    ensures key in Exec(s, steps).shared
    decreases steps
  {
    hide Next;
    if steps != [] {
      StepExtends(s, steps[0]);
      SharedOnlyGrows(Next(s, steps[0]), steps[1..], key);
    }
  }

  // ----- what is stored

  predicate Asked(work: Work, key: nat) {
    Question(key) in AskedOf(work)
  }

  /** What one question's entry is after a finish. */
  predicate StoredEntry(work: Work, outcome: Outcome, stored: Cache, key: nat) {
    var error := ErrorFor(work, outcome);
    && (error.None? && key in outcome.answers ==> key in stored.fields && stored.fields[key] == outcome.answers[key])
    && (error.None? && key !in outcome.answers && Asked(work, key) ==> key in stored.fields && stored.fields[key] == Failed("question_not_analyzed"))
    && (error.Some? && Asked(work, key) ==> key in stored.fields && stored.fields[key] == Failed(error.value))
    && (!Asked(work, key) ==>
          (key in stored.fields <==> key in work.cache.fields) && (key in stored.fields ==> stored.fields[key] == work.cache.fields[key]))
  }

  /** After a finishing write the row holds each answer of the plan, a reason for each other question
      that was asked, and the older entries; exactly the mappings that the plan answered are
      shared; and the row is ready, or failed with the error. */
  lemma FinishStores(s: State, w: nat, key: nat)
    requires CanWrite(s, w)
    ensures var n := Next(s, FinishWrite(w)); var work, outcome := PhaseOf(s, w).work, PhaseOf(s, w).outcome;
      var error := ErrorFor(work, outcome);
      && n.row.Some? && StoredEntry(work, outcome, n.row.value.cache, key)
      && n.row.value.status == (if error.None? then Ready else Stopped)
      && n.row.value.error == (if error.Some? then error else s.row.value.error)
      && (if error.None? && key in outcome.answers && outcome.answers[key].Mapping?
          then key in n.shared && n.shared[key] == outcome.answers[key].fact
          else (key in n.shared <==> key in s.shared) && (key in n.shared ==> n.shared[key] == s.shared[key]))
  {
    var work, outcome := PhaseOf(s, w).work, PhaseOf(s, w).outcome;
    EntryStored(work, outcome, key);
    SharedByIff(work, outcome, key);
    hide ResultFor, ErrorFor, SharedBy, StoredEntry;
  }

  lemma EntryStored(work: Work, outcome: Outcome, key: nat)
    ensures StoredEntry(work, outcome, ResultFor(work, outcome), key)
  {
    ResultEntries(work.cache, work.fields, work.warm, outcome, key);
    hide ResultOf, ErrorOf, PendingOf, Unknown;
  }

  lemma SharedByIff(work: Work, outcome: Outcome, key: nat)
    ensures var v := SharedBy(work, outcome);
      && (key in v <==> ErrorFor(work, outcome).None? && key in outcome.answers && outcome.answers[key].Mapping?)
      && (key in v ==> v[key] == outcome.answers[key].fact)
  {
    EntryStored(work, outcome, key);
    VerifiedIff(ResultFor(work, outcome), AskedOf(work), key);
    if ErrorFor(work, outcome).None? {
      AnsweredIsPending(UnknownOf(work), work.warm, work.cache, outcome, key);
      PlanHasAnswers(work, outcome);
    }
    hide ResultFor, AskedOf, ErrorFor, UnknownOf, GoodPlan;
  }

  lemma PlanHasAnswers(work: Work, outcome: Outcome)
    requires ErrorFor(work, outcome).None?
    ensures outcome.Plan?
  {
    hide UnknownOf, AskedOf;
  }

  lemma VerifiedIff(result: Cache, pending: seq<Pending>, key: nat)
    ensures var v := Verified(result, pending);
      && (key in v <==> key in result.fields && Question(key) in pending && result.fields[key].Mapping?)
      && (key in v ==> v[key] == result.fields[key].fact)
  {
  }

  /** A stale takeover stores a failure for each pending question over the merged cache it saw. */
  lemma TakeoverStores(s: State, w: nat, now: int, key: nat)
    requires PhaseOf(s, w).Locked? && IsRunning(PhaseOf(s, w).row) && s.row.Some?
    ensures var phase, n := PhaseOf(s, w), Next(s, Decide(w, now)); var seen := phase.row.value;
      if now - seen.started <= STALE_SECONDS then n.row == s.row && n.claims == s.claims
      else
        && n.row.Some? && n.row.value.status == Stopped && n.row.value.error == Some("preparation_interrupted") && n.row.value.pending == []
        && n.claims == s.claims && n.shared == s.shared
        && (Question(key) in seen.pending ==>
              key in n.row.value.cache.fields && n.row.value.cache.fields[key] == Failed("preparation_interrupted"))
        && (Question(key) !in seen.pending && key in phase.shared ==>
              key in n.row.value.cache.fields && n.row.value.cache.fields[key] == Mapping(phase.shared[key]))
        && (Question(key) !in seen.pending && key !in phase.shared && key in seen.cache.fields ==>
              key in n.row.value.cache.fields && n.row.value.cache.fields[key] == seen.cache.fields[key])
  {
    var seen := PhaseOf(s, w).row.value;
    MergeSharedEntries(seen.cache, PhaseOf(s, w).shared, key);
    FailPendingEntries(MergeShared(seen.cache, PhaseOf(s, w).shared), seen.pending, "preparation_interrupted", key);
    hide MergeShared, FailPending;
  }

  /** A request that finds no live call claims exactly when something is still needed, and asks for
      what is. */
  lemma ClaimIff(s: State, w: nat, now: int)
    requires PhaseOf(s, w).Locked? && !IsRunning(PhaseOf(s, w).row)
    ensures var phase, n := PhaseOf(s, w), Next(s, Decide(w, now)); var merged := MergeShared(CacheOf(phase.row), phase.shared);
      var needed := (exists i :: 0 <= i < |phase.fields| && Asks(merged, phase.warm, phase.fields[i])) || NeedsCommon(phase.fields, merged, phase.warm);
      && (n.claims != s.claims <==> needed)
      && (needed ==> n.claims == s.claims + [PendingOf(Unknown(phase.fields, merged, phase.warm), phase.warm, merged)])
      && (needed ==> IsRunning(n.row) && n.row.value.started == now && n.row.value.error == None && n.row.value.pending == n.claims[|s.claims|])
      && (!needed ==> n.row == s.row) && n.shared == s.shared
  {
    var phase := PhaseOf(s, w);
    var merged := MergeShared(CacheOf(phase.row), phase.shared);
    SomethingUnknown(phase.fields, merged, phase.warm);
    hide MergeShared, Unknown, PendingOf, Asks, NeedsCommon;
  }

  lemma SomethingUnknown(fields: seq<Field>, cache: Cache, warm: bool)
    ensures Unknown(fields, cache, warm) != [] <==> exists i :: 0 <= i < |fields| && Asks(cache, warm, fields[i])
  {
    var unknown := Unknown(fields, cache, warm);
    hide Asks;
    if unknown != [] {
      UnknownMeaning(fields, cache, warm, unknown[0]);
    }
    if i :| 0 <= i < |fields| && Asks(cache, warm, fields[i]) {
      UnknownMeaning(fields, cache, warm, fields[i]);
    }
  }

  // ----- when finishes are quiet

  /** Every finish is one step: the read is followed at once by the write. */
  predicate AtomicFinishes(s: State, steps: seq<Step>)
    decreases |steps|
  {
    if steps == [] then true
    else if steps[0].FinishRead? then
      |steps| > 1 && steps[1] == FinishWrite(steps[0].w) && NeedsNoWait(s, steps[0].w)
      && AtomicFinishes(Next(Next(s, steps[0]), steps[1]), steps[2..])
    else !steps[0].FinishWrite? && AtomicFinishes(Next(s, steps[0]), steps[1..])
  }

  /** The finish can go through now: if it has mappings to share, the owner lock is free. */
  predicate NeedsNoWait(s: State, w: nat) {
    var phase := PhaseOf(s, w);
    phase.Answering? && Owns(s, phase.work.token) && s.lock.Some? ==> SharedBy(phase.work, phase.outcome) == map[]
  }

  ghost predicate NoneWriting(s: State) {
    forall w :: w in s.workers ==> !s.workers[w].Writing?
  }

  lemma FinishedAtOnce(s: State, w: nat)
    requires NoneWriting(s) && NeedsNoWait(s, w)
    ensures Quiet(s, FinishRead(w)) && Quiet(Next(s, FinishRead(w)), FinishWrite(w))
    ensures NoneWriting(Next(Next(s, FinishRead(w)), FinishWrite(w)))
  {
    hide ResultFor, ErrorFor, SharedBy, AskedOf;
  }

  lemma NoneStartWriting(s: State, step: Step)
    requires NoneWriting(s) && !step.FinishRead? && !step.FinishWrite?
    ensures NoneWriting(Next(s, step)) && Quiet(s, step)
  {
    hide ResultFor, ErrorFor, SharedBy, AskedOf;
  }

  /** If every finish is one atomic step, every run is quiet. */
  lemma {:induction false} AtomicFinishesAreQuiet(s: State, steps: seq<Step>)
    requires NoneWriting(s) && AtomicFinishes(s, steps)
    ensures QuietRun(s, steps)
    decreases |steps|
  {
    hide Next, Quiet, NoneWriting;
    if steps != [] {
      if steps[0].FinishRead? {
        FinishedAtOnce(s, steps[0].w);
        var m := Next(s, steps[0]);
        AtomicFinishesAreQuiet(Next(m, steps[1]), steps[2..]);
        assert steps[1..][1..] == steps[2..];
        assert QuietRun(m, steps[1..]);
      } else {
        NoneStartWriting(s, steps[0]);
        AtomicFinishesAreQuiet(Next(s, steps[0]), steps[1..]);
      }
    }
  }

  // ----- what a harmful late write does

  /** A finishing write keeps the invariant, and so the promise, exactly when everything asked
      after its claim is shared; with no later claim it always does. */
  lemma LateWriteIff(s: State, w: nat)
    requires Inv(s) && CanWrite(s, w)
    ensures Inv(Next(s, FinishWrite(w))) <==> LaterClaimsShared(s, PhaseOf(s, w).work.token)
    ensures PhaseOf(s, w).work.token + 1 == |s.claims| ==> LaterClaimsShared(s, PhaseOf(s, w).work.token)
  {
    WriteCoversIff(s, w);
    if LaterClaimsShared(s, PhaseOf(s, w).work.token) {
      FinishKeepsInv(s, w);
    }
    hide LockedOk, RowOk, RowKnown, WorkersOk, PhaseOk, Next;
  }

  /** A request that asks for exactly p: one plain question, or a warm-up of the drafts. */
  function Plain(key: nat): Field {
    Field(key, false, false, false, false)
  }

  const WarmUp: Field := Field(0, false, false, false, true)

  function FieldsFor(p: Pending): seq<Field> {
    if p.Question? then [Plain(p.key)] else [WarmUp]
  }

  lemma AsksOne(token: nat, p: Pending, cache: Cache)
    requires !Cached(cache, p)
    ensures var work := Work(token, FieldsFor(p), p.Common?, cache);
      AskedOf(work) == [p] && (UnknownOf(work) == [] ==> NeedsCommon(work.fields, cache, work.warm))
  {
    var fields := FieldsFor(p);
    assert fields[..0] == [];
    assert Unknown(fields[..0], cache, p.Common?) == [];
    if p.Question? {
      assert Asks(cache, false, fields[0]);
    } else {
      assert AsksCommon(cache, true, fields[0]);
    }
  }

  /** A request for p alone that finds no live call claims it. */
  lemma OneRequest(s: State, w: nat, p: Pending, now: int)
    requires PhaseOf(s, w).Idle? && s.lock.None? && !IsRunning(s.row)
    requires !Cached(MergeShared(CacheOf(s.row), s.shared), p)
    ensures var n := Next(Next(s, LockAndRead(w, FieldsFor(p), p.Common?)), Decide(w, now));
      var work := Work(|s.claims|, FieldsFor(p), p.Common?, MergeShared(CacheOf(s.row), s.shared));
      && n.claims == s.claims + [[p]] && n.lock.None? && n.shared == s.shared
      && n.workers == s.workers[w := Working(work)]
      && IsRunning(n.row) && n.row.value.owner == Some(|s.claims|) && n.row.value.pending == [p]
      && n.row.value.started == now
      && n.row.value.cache == if s.row.None? then work.cache else s.row.value.cache
  {
    AsksOne(|s.claims|, p, MergeShared(CacheOf(s.row), s.shared));
    hide AskedOf, UnknownOf, MergeShared, FieldsFor;
    var m := Next(s, LockAndRead(w, FieldsFor(p), p.Common?));
    assert m.workers[w] == Locked(FieldsFor(p), p.Common?, s.row, s.shared);
    var n := Next(m, Decide(w, now));
    assert n.workers == s.workers[w := Working(Work(|s.claims|, FieldsFor(p), p.Common?, MergeShared(CacheOf(s.row), s.shared)))];
  }

  /** Freeing the owner lock, if it is held, by its holder going away. */
  function Freed(s: State): State {
    if s.lock.Some? then Next(s, Crash(s.lock.value)) else s
  }

  /** Whenever a write is not harmless, letting it land and asking for what it forgets starts a
      second model call for the same key. */
  lemma LateWriteReasks(s: State, w: nat, i: nat, p: Pending, v: nat, now: int)
    requires Inv(s) && CanWrite(s, w)
    requires PhaseOf(s, w).work.token < i < |s.claims| && p in s.claims[i] && !InShared(s.shared, p)
    requires v != w && PhaseOf(s, v).Idle?
    ensures var n := Freed(Next(s, FinishWrite(w)));
      Next(Next(n, LockAndRead(v, FieldsFor(p), p.Common?)), Decide(v, now)).claims == s.claims + [[p]]
  {
    WriteForgets(s, w, i, p);
    var m := Next(s, FinishWrite(w));
    FreedIs(m, v);
    var n := Freed(m);
    hide Next, Freed, Inv;
    MergeSharedCaches(CacheOf(n.row), n.shared, p);
    OneRequest(n, v, p, now);
  }

  /** What such a write forgets. */
  lemma WriteForgets(s: State, w: nat, i: nat, p: Pending)
    requires Inv(s) && CanWrite(s, w)
    requires PhaseOf(s, w).work.token < i < |s.claims| && p in s.claims[i] && !InShared(s.shared, p)
    ensures var n := Next(s, FinishWrite(w));
      !Settled(n, p) && n.row.Some? && !IsRunning(n.row) && n.claims == s.claims && n.workers == s.workers[w := Idle]
  {
    WriteSettles(s, w);
    assert PhaseOk(s, w, s.workers[w]);
    hide Next, AskedOf, CanWrite;
    LaterIsNotMine(s, s.workers[w].work, i, p);
  }

  lemma FreedIs(s: State, v: nat)
    requires PhaseOf(s, v).Idle?
    ensures var n := Freed(s);
      n.lock.None? && n.row == s.row && n.shared == s.shared && n.claims == s.claims && PhaseOf(n, v).Idle?
  {
  }

  const BeforeLateWrite: seq<Step> :=
    [LockAndRead(0, [Plain(1)], false), Decide(0, 0), Answer(0, Error("answer_preparation_timeout")), FinishRead(0),
     LockAndRead(1, [Plain(2)], false), Decide(1, 60), LockAndRead(1, [Plain(2)], false), Decide(1, 61)]

  /** Such a state is reachable by a quiet run: request 0 reads its row and is taken over, and
      question 2 is then claimed before request 0 writes. */
  lemma LateWriteIsReachable()
    ensures QuietRun(Start, BeforeLateWrite)
    ensures var s := Exec(Start, BeforeLateWrite);
      && Inv(s) && CanWrite(s, 0) && s.lock.None? && PhaseOf(s, 0).work.token == 0 && s.shared == map[]
      && s.claims == [[Question(1)], [Question(2)]] && PhaseOf(s, 2).Idle?
  {
    hide Next, Inv, Exec, QuietRun, HarmlessRun;
    StartIsOk();
    FourPairs(Start, BeforeLateWrite);
    QuietRunIsHarmless(Start, BeforeLateWrite);
    RunKeepsInv(Start, BeforeLateWrite);
    var s2 := Next(Next(Next(Next(Start, LockAndRead(0, [Plain(1)], false)), Decide(0, 0)), Answer(0, Late)), FinishRead(0));
    FirstIsWriting(s2);
    var s3 := Next(Next(s2, LockAndRead(1, [Plain(2)], false)), Decide(1, 60));
    SecondTakesOver(s2, s3);
    OneRequest(s3, 1, Question(2), 61);
    assert SharedBy(FirstWork, Late) == map[];
  }

  const Late: Outcome := Error("answer_preparation_timeout")
  const FirstWork: Work := Work(0, [Plain(1)], false, MergeShared(Empty, map[]))

  lemma FirstIsWriting(s2: State)
    requires s2 == Next(Next(Next(Next(Start, LockAndRead(0, [Plain(1)], false)), Decide(0, 0)), Answer(0, Late)), FinishRead(0))
    ensures s2 == State(Some(NewRow(0, FirstWork.cache, [Question(1)], 0)), map[], None, [[Question(1)]], map[0 := Writing(FirstWork, Late)])
  {
    OneRequest(Start, 0, Question(1), 0);
    AsksOne(0, Question(1), FirstWork.cache);
    hide AskedOf, UnknownOf, MergeShared;
    var s1 := Next(Next(Start, LockAndRead(0, [Plain(1)], false)), Decide(0, 0));
    assert s1.workers == map[0 := Working(FirstWork)];
    assert s1.row.value == NewRow(0, FirstWork.cache, [Question(1)], 0);
    var a := Next(s1, Answer(0, Late));
    assert a.workers == map[0 := Answering(FirstWork, Late)];
  }

  lemma SecondTakesOver(s2: State, s3: State)
    requires s2 == State(Some(NewRow(0, FirstWork.cache, [Question(1)], 0)), map[], None, [[Question(1)]], map[0 := Writing(FirstWork, Late)])
    requires s3 == Next(Next(s2, LockAndRead(1, [Plain(2)], false)), Decide(1, 60))
    ensures s3.claims == s2.claims && s3.shared == map[] && s3.lock.None? && s3.row.Some? && !IsRunning(s3.row)
    ensures s3.workers == map[0 := Writing(FirstWork, Late), 1 := Idle]
    ensures 2 !in MergeShared(CacheOf(s3.row), map[]).fields
  {
    var m := Next(s2, LockAndRead(1, [Plain(2)], false));
    TakenOverCaches(m.workers[1], Question(2));
  }

  lemma FourPairs(s: State, steps: seq<Step>)
    requires |steps| == 8 && forall i :: 0 <= i < 8 ==> !steps[i].FinishWrite?
    ensures Exec(s, steps) ==
      Next(Next(Next(Next(Next(Next(Next(Next(s, steps[0]), steps[1]), steps[2]), steps[3]), steps[4]), steps[5]), steps[6]), steps[7])
    ensures QuietRun(s, steps)
  {
    hide Next;
    ExecTwo(s, steps);
    var s2 := Next(Next(s, steps[0]), steps[1]);
    ExecTwo(s2, steps[2..]);
    var s4 := Next(Next(s2, steps[2]), steps[3]);
    ExecTwo(s4, steps[4..]);
    var s6 := Next(Next(s4, steps[4]), steps[5]);
    ExecTwo(s6, steps[6..]);
    assert steps[2..][2..] == steps[4..] && steps[4..][2..] == steps[6..] && steps[6..][2..] == [];
  }

  lemma ExecTwo(s: State, steps: seq<Step>)
    requires |steps| >= 2 && !steps[0].FinishWrite? && !steps[1].FinishWrite?
    ensures Exec(s, steps) == Exec(Next(Next(s, steps[0]), steps[1]), steps[2..])
    ensures QuietRun(s, steps) <==> QuietRun(Next(Next(s, steps[0]), steps[1]), steps[2..])
  {
    hide Next;
    assert steps[1..][1..] == steps[2..] && steps[1..][0] == steps[1];
  }
}
