/** The limit of twenty live authorizations for one login, which `authorize` counts before it
    inserts. */
module GrantLimits {
  import opened Wrappers
  import opened Grants

  /** The calls that have counted this login's grants and not yet inserted their own. */
  ghost function Counted(s: State, parent: Parent): set<nat> {
    set w | w in s.calls && s.calls[w].AuthorizeTimed? && s.calls[w].parent == parent
  }

  ghost function Live(s: State, parent: Parent): nat {
    |LiveAt(s.grants, parent, s.clock)|
  }

  /** At no time are more than `k` such calls between their count and their insert. */
  ghost predicate AtMost(s: State, steps: seq<Step>, parent: Parent, k: nat)
    decreases steps
  {
    |Counted(s, parent)| <= k && (steps == [] || AtMost(Next(s, steps[0]), steps[1..], parent, k))
  }

  ghost predicate Within(s: State, parent: Parent, k: nat) {
    Live(s, parent) + |Counted(s, parent)| <= 19 + k
  }

  lemma Smaller<T>(small: set<T>, large: set<T>)
    requires small <= large
    ensures |small| <= |large|
  {
    assert large == small + (large - small);
  }

  /** Grants only go out of life: their login and expiry never change and time moves on. */
  lemma LiveFalls(s: State, n: State, parent: Parent)
    requires Advances(s, n) && |n.grants| == |s.grants|
    ensures Live(n, parent) <= Live(s, parent)
  {
    forall i | i in LiveAt(n.grants, parent, n.clock)
      ensures i in LiveAt(s.grants, parent, s.clock)
    {
      assert GrantAdvances(s.grants[i], n.grants[i]);
    }
    Smaller(LiveAt(n.grants, parent, n.clock), LiveAt(s.grants, parent, s.clock));
  }

  /** An insert adds one live grant to its own login, unless that has run out in between. */
  lemma CommitAdds(s: State, w: nat, parent: Parent)
    requires CallOf(s, w).AuthorizeTimed?
    ensures var call, n := CallOf(s, w), Next(s, AuthorizeCommit(w));
      var live := call.parent == parent && s.clock < parent.exp && s.clock < call.now + SESSION_SECONDS;
      Live(n, parent) == Live(s, parent) + if live then 1 else 0
  {
    var call := CallOf(s, w);
    var grant := NewGrant(call.parent, call.client, call.challenge, s.secrets, call.now);
    LiveAppend(s.grants, grant, parent, s.clock);
    hide LiveAt;
    assert Next(s, AuthorizeCommit(w)).grants == s.grants + [grant];
  }

  lemma CommitKeepsWithin(s: State, w: nat, parent: Parent, k: nat)
    requires Within(s, parent, k)
    ensures Within(Next(s, AuthorizeCommit(w)), parent, k)
  {
    hide LiveAt;
    if CallOf(s, w).AuthorizeTimed? {
      CommitAdds(s, w, parent);
      var n := Next(s, AuthorizeCommit(w));
      assert Counted(n, parent) == Counted(s, parent) - {w};
    }
  }

  lemma TimeKeepsWithin(s: State, w: nat, parent: Parent, k: nat)
    requires Within(s, parent, k) && |Counted(Next(s, AuthorizeTime(w)), parent)| <= k
    ensures Within(Next(s, AuthorizeTime(w)), parent, k)
  {
    hide LiveAt;
    if CallOf(s, w).AuthorizeChecked? {
      AuthorizeTimeIff(s, w);
      hide LiveGrants;
      var n := Next(s, AuthorizeTime(w));
      assert n == s.(calls := n.calls);
      if CallOf(s, w).parent != parent || CallOf(n, w).Idle? {
        assert Counted(n, parent) <= Counted(s, parent);
        Smaller(Counted(n, parent), Counted(s, parent));
      }
    }
  }

  lemma OtherKeepsWithin(s: State, step: Step, parent: Parent, k: nat)
    requires Inv(s) && Within(s, parent, k) && !step.AuthorizeTime? && !step.AuthorizeCommit?
    ensures Within(Next(s, step), parent, k)
  {
    StepAdvances(s, step);
    hide LiveAt, ByCode, ByToken, Accepted, ExchangeAllowed, LoginOk, RevokeFirst, Inv, Advances;
    var n := Next(s, step);
    assert |n.grants| == |s.grants|;
    LiveFalls(s, n, parent);
    assert Counted(n, parent) <= Counted(s, parent);
    Smaller(Counted(n, parent), Counted(s, parent));
  }

  lemma StepKeepsWithin(s: State, step: Step, parent: Parent, k: nat)
    requires Inv(s) && Within(s, parent, k) && |Counted(Next(s, step), parent)| <= k
    ensures Within(Next(s, step), parent, k)
  {
    hide Next, Inv, Within;
    if step.AuthorizeTime? {
      TimeKeepsWithin(s, step.w, parent, k);
    } else if step.AuthorizeCommit? {
      CommitKeepsWithin(s, step.w, parent, k);
    } else {
      OtherKeepsWithin(s, step, parent, k);
    }
  }

  lemma {:induction false} RunKeepsWithin(s: State, steps: seq<Step>, parent: Parent, k: nat)
    requires Inv(s) && Within(s, parent, k) && AtMost(s, steps, parent, k)
    ensures Within(Exec(s, steps), parent, k)
    decreases steps
  {
    if steps != [] {
      StepKeepsWithin(s, steps[0], parent, k);
      StepKeepsInv(s, steps[0]);
      hide Next, Within, Inv;
      RunKeepsWithin(Next(s, steps[0]), steps[1..], parent, k);
    }
  }

  /** Over all runs in which at most `k` authorizations of a login are ever between their count and
      their insert, the login has at most 19 + k live grants; one at a time, at most twenty. */
  lemma LimitHolds(clock: int, registered: set<nat>, active: set<nat>, steps: seq<Step>, parent: Parent, k: nat)
    requires k > 0 && AtMost(Start(clock, registered, active), steps, parent, k)
    ensures Live(Exec(Start(clock, registered, active), steps), parent) <= 19 + k
  {
    var s := Start(clock, registered, active);
    assert LiveAt(s.grants, parent, clock) == {} && Counted(s, parent) == {};
    RunKeepsWithin(s, steps, parent, k);
  }

  /** An insert keeps a login within twenty live grants exactly when it had fewer by then, or the new
      grant is no longer live. */
  lemma InsertKeepsLimitIff(s: State, w: nat)
    requires CallOf(s, w).AuthorizeTimed? && Live(s, CallOf(s, w).parent) <= 20
    ensures var call := CallOf(s, w);
      Live(Next(s, AuthorizeCommit(w)), call.parent) <= 20 <==>
        Live(s, call.parent) < 20 || s.clock >= call.parent.exp || s.clock >= call.now + SESSION_SECONDS
  {
    CommitAdds(s, w, CallOf(s, w).parent);
    hide Live;
  }

  /** The bound is reached: from every state in which a served login has nineteen live grants, `k` free
      calls can each count nineteen and then insert. */
  lemma OverlapReachesBound(s: State, parent: Parent, client: nat, workers: seq<nat>) returns (steps: seq<Step>)
    requires LoginOk(s, parent) && client in s.registered && Live(s, parent) == 19
    requires forall i :: 0 <= i < |workers| ==> CallOf(s, workers[i]).Idle?
    requires forall i, j :: 0 <= i < j < |workers| ==> workers[i] != workers[j]
    ensures Live(Exec(s, steps), parent) == 19 + |workers|
  {
    var counting := CountAll(s, parent, client, workers);
    var m := Exec(s, counting);
    var inserting := InsertAll(m, parent, workers);
    steps := counting + inserting;
    ExecThen(s, counting, inserting);
  }

  lemma {:induction false} ExecThen(s: State, first: seq<Step>, second: seq<Step>)
    ensures Exec(s, first + second) == Exec(Exec(s, first), second)
    decreases first
  {
    hide Next;
    if first == [] {
      assert first + second == second;
    } else {
      assert (first + second)[1..] == first[1..] + second;
      ExecThen(Next(s, first[0]), first[1..], second);
    }
  }

  ghost predicate HasCounted(s: State, parent: Parent, w: nat) {
    CallOf(s, w).AuthorizeTimed? && CallOf(s, w).parent == parent && CallOf(s, w).now == s.clock
  }

  lemma {:induction false} CountAll(s: State, parent: Parent, client: nat, workers: seq<nat>) returns (steps: seq<Step>)
    requires LoginOk(s, parent) && client in s.registered && Live(s, parent) == 19
    requires forall i :: 0 <= i < |workers| ==> CallOf(s, workers[i]).Idle?
    requires forall i, j :: 0 <= i < j < |workers| ==> workers[i] != workers[j]
    ensures var m := Exec(s, steps);
      && m == s.(calls := m.calls) && (forall i :: 0 <= i < |workers| ==> HasCounted(m, parent, workers[i]))
      && forall w :: w !in workers ==> CallOf(m, w) == CallOf(s, w)
    decreases workers
  {
    if workers == [] {
      return [];
    }
    var w, rest := workers[0], workers[1..];
    var c1, c2 := AuthorizeCheck(w, parent, client, S256(0)), AuthorizeTime(w);
    var a := Next(s, c1);
    var b := Next(a, c2);
    AuthorizeTimeIff(a, w);
    hide LiveGrants, LiveAt;
    assert b == s.(calls := b.calls) && HasCounted(b, parent, w);
    assert forall v :: v != w ==> CallOf(b, v) == CallOf(s, v);
    var more := CountAll(b, parent, client, rest);
    steps := [c1, c2] + more;
    assert steps[1..][1..] == more && steps[0] == c1 && steps[1..][0] == c2;
    hide Next;
    assert Exec(s, steps) == Exec(b, more);
    assert w !in rest;
  }

  lemma {:induction false} InsertAll(s: State, parent: Parent, workers: seq<nat>) returns (steps: seq<Step>)
    requires s.clock < parent.exp && forall i :: 0 <= i < |workers| ==> HasCounted(s, parent, workers[i])
    requires forall i, j :: 0 <= i < j < |workers| ==> workers[i] != workers[j]
    ensures Live(Exec(s, steps), parent) == Live(s, parent) + |workers|
    decreases workers
  {
    if workers == [] {
      return [];
    }
    var w, rest := workers[0], workers[1..];
    assert HasCounted(s, parent, w);
    var a := Next(s, AuthorizeCommit(w));
    CommitAdds(s, w, parent);
    forall i | 0 <= i < |rest|
      ensures HasCounted(a, parent, rest[i])
    {
      assert HasCounted(s, parent, workers[i + 1]);
    }
    var more := InsertAll(a, parent, rest);
    steps := [AuthorizeCommit(w)] + more;
    assert steps[1..] == more;
  }
}
