/** The server side of the extension connection: single-use authorization codes, restricted
    sessions and logout, with every check separate from the commit that follows it. */
module Grants {
  import opened Wrappers

  const CODE_SECONDS: int := 90
  const SESSION_SECONDS: int := 8 * 3600
  const GRANT_LIMIT: nat := 20

  /** SHA-256 as an injective function. */
  datatype Challenge = S256(verifier: nat)

  /** A platform login: the decoded access token. */
  datatype Parent = Parent(id: nat, user: nat, exp: int)

  /** `born` is the time `authorize` read; the table itself keeps only the two expiries. */
  datatype Grant = Grant(
    parent: Parent, client: nat, challenge: Challenge, code: nat, token: Option<nat>,
    born: int, codeExpires: int, expires: int, consumed: bool, revoked: bool)

  function Min(a: int, b: int): int {
    if a <= b then a else b
  }

  function NewGrant(parent: Parent, client: nat, challenge: Challenge, code: nat, now: int): Grant {
    var expires := Min(parent.exp, now + SESSION_SECONDS);
    Grant(parent, client, challenge, code, None, now, Min(now + CODE_SECONDS, expires), expires, false, false)
  }

  predicate CanConsume(grant: Grant, now: int) {
    !grant.consumed && !grant.revoked && grant.codeExpires > now
  }

  function Consumed(grant: Grant, token: nat): Grant {
    grant.(consumed := true, token := Some(token))
  }

  function Revoked(grant: Grant): Grant {
    grant.(revoked := true)
  }

  class GrantRow {
    const parent: Parent
    const client: nat
    const challenge: Challenge
    const code: nat
    const born: int
    const codeExpires: int
    const expires: int
    var token: Option<nat>
    var consumed: bool
    var revoked: bool

    function Value(): Grant
      reads this
    {
      Grant(parent, client, challenge, code, token, born, codeExpires, expires, consumed, revoked)
    }

    constructor (login: Parent, app: nat, proof: Challenge, secret: nat, now: int)
      ensures Value() == NewGrant(login, app, proof, secret, now)
    {
      parent, client, challenge, code, born := login, app, proof, secret, now;
      expires := Min(login.exp, now + SESSION_SECONDS);
      codeExpires := Min(now + CODE_SECONDS, Min(login.exp, now + SESSION_SECONDS));
      token, consumed, revoked := None, false, false;
    }

    /** The UPDATE of `exchange`. */
    method Consume(secret: nat, now: int) returns (changed: bool)
      modifies this
      ensures changed == CanConsume(old(Value()), now)
      ensures Value() == if changed then Consumed(old(Value()), secret) else old(Value())
    {
      changed := !consumed && !revoked && codeExpires > now;
      if changed {
        consumed := true;
        token := Some(secret);
      }
    }

    method Revoke()
      modifies this
      ensures Value() == Revoked(old(Value()))
    {
      revoked := true;
    }
  }

  // ----- the machine

  datatype Call =
    | Idle
    | AuthorizeChecked(parent: Parent, client: nat, challenge: Challenge)
    | AuthorizeTimed(parent: Parent, client: nat, challenge: Challenge, now: int)
    | ExchangeChecked(grant: nat, verifier: nat)
    | ExchangeTimed(grant: nat, verifier: nat, now: int)
    | DisconnectChecked(grant: nat)
    | LogoutUpdated(parent: Parent, seen: nat)

  datatype Exchange = Exchange(grant: nat, token: nat, verifier: nat, code: nat)

  datatype State = State(
    clock: int, registered: set<nat>, active: set<nat>, loggedOut: set<Parent>, grants: seq<Grant>, secrets: nat,
    exchanges: seq<Exchange>, calls: map<nat, Call>)

  function Start(clock: int, registered: set<nat>, active: set<nat>): State {
    State(clock, registered, active, {}, [], 0, [], map[])
  }

  datatype Step =
    | Tick(seconds: nat)
    | SetActive(user: nat, on: bool)
    | AuthorizeCheck(w: nat, parent: Parent, client: nat, challenge: Challenge)
    | AuthorizeTime(w: nat)
    | AuthorizeCommit(w: nat)
    | ExchangeCheck(w: nat, client: nat, code: nat, verifier: nat)
    | ExchangeTime(w: nat)
    | ExchangeCommit(w: nat)
    | DisconnectCheck(w: nat, token: nat)
    | DisconnectCommit(w: nat)
    | LogoutUpdate(w: nat, parent: Parent)
    | LogoutCommit(w: nat)
    | Crash(w: nat)

  function CallOf(s: State, w: nat): Call {
    if w in s.calls then s.calls[w] else Idle
  }

  function Go(s: State, w: nat, call: Call): State {
    s.(calls := s.calls[w := call])
  }

  function ByCode(grants: seq<Grant>, code: nat): (g: Option<nat>)
    ensures g.Some? ==> g.value < |grants| && grants[g.value].code == code
    ensures g.None? ==> forall i :: 0 <= i < |grants| ==> grants[i].code != code
  {
    if grants == [] then None
    else if grants[|grants| - 1].code == code then Some(|grants| - 1)
    else ByCode(grants[..|grants| - 1], code)
  }

  function ByToken(grants: seq<Grant>, token: nat): (g: Option<nat>)
    ensures g.Some? ==> g.value < |grants| && grants[g.value].token == Some(token)
    ensures g.None? ==> forall i :: 0 <= i < |grants| ==> grants[i].token != Some(token)
  {
    if grants == [] then None
    else if grants[|grants| - 1].token == Some(token) then Some(|grants| - 1)
    else ByToken(grants[..|grants| - 1], token)
  }

  /** A platform login that the ordinary endpoints accept now. */
  predicate LoginOk(s: State, parent: Parent) {
    parent !in s.loggedOut && parent.exp > s.clock && parent.user in s.active
  }

  function LiveGrants(grants: seq<Grant>, parent: Parent, now: int): nat {
    if grants == [] then 0
    else
      var last := grants[|grants| - 1];
      LiveGrants(grants[..|grants| - 1], parent, now) + if last.parent == parent && last.expires > now then 1 else 0
  }

  predicate ExchangeAllowed(s: State, grant: Grant, client: nat, verifier: nat) {
    && client in s.registered && grant.client == client && grant.challenge == S256(verifier)
    && !grant.revoked && !grant.consumed && grant.codeExpires > s.clock && grant.expires > s.clock
    && grant.parent !in s.loggedOut && grant.parent.user in s.active
  }

  /** `extension_grant`: the grant a restricted token stands for, if it is still accepted. */
  function Accepted(s: State, token: nat): Option<nat> {
    var g := ByToken(s.grants, token);
    if g.Some? && var grant := s.grants[g.value];
       grant.client in s.registered && !grant.revoked && grant.consumed && grant.expires > s.clock
       && grant.parent !in s.loggedOut && grant.parent.user in s.active
    then g else None
  }

  /** The UPDATE of `logout`, on the first `seen` grants. */
  function RevokeFirst(grants: seq<Grant>, parent: Parent, seen: nat): (r: seq<Grant>)
    ensures |r| == |grants|
    ensures forall i :: 0 <= i < |r| ==> r[i] == if i < seen && grants[i].parent == parent then Revoked(grants[i]) else grants[i]
  {
    seq(|grants|, i requires 0 <= i < |grants| => if i < seen && grants[i].parent == parent then Revoked(grants[i]) else grants[i])
  }

  /** The same, as the database's loop over the rows. */
  method RevokeRows(rows: array<GrantRow>, parent: Parent)
    requires forall i, j :: 0 <= i < j < rows.Length ==> rows[i] != rows[j]
    modifies set i | 0 <= i < rows.Length :: rows[i]
    ensures forall i :: 0 <= i < rows.Length ==>
      rows[i].Value() == if rows[i].parent == parent then Revoked(old(rows[i].Value())) else old(rows[i].Value())
  {
    for k := 0 to rows.Length
      invariant forall i :: 0 <= i < k ==>
        rows[i].Value() == if rows[i].parent == parent then Revoked(old(rows[i].Value())) else old(rows[i].Value())
      invariant forall i :: k <= i < rows.Length ==> rows[i].Value() == old(rows[i].Value())
    {
      if rows[k].parent == parent {
        rows[k].Revoke();
      }
    }
  }

  /** A step that does not apply changes nothing. */
  function Next(s: State, step: Step): State {
    match step
    case Tick(seconds) => s.(clock := s.clock + seconds)
    case SetActive(user, on) => s.(active := if on then s.active + {user} else s.active - {user})
    case Crash(w) => s.(calls := s.calls - {w})
    case AuthorizeCheck(w, parent, client, challenge) =>
      if CallOf(s, w).Idle? && LoginOk(s, parent) && client in s.registered
      then Go(s, w, AuthorizeChecked(parent, client, challenge)) else s
    case AuthorizeTime(w) =>
      (match CallOf(s, w)
       case AuthorizeChecked(parent, client, challenge) =>
         Go(s, w, if LiveGrants(s.grants, parent, s.clock) >= GRANT_LIMIT then Idle
                  else AuthorizeTimed(parent, client, challenge, s.clock))
       case _ => s)
    case AuthorizeCommit(w) =>
      (match CallOf(s, w)
       case AuthorizeTimed(parent, client, challenge, now) =>
         Go(s, w, Idle).(grants := s.grants + [NewGrant(parent, client, challenge, s.secrets, now)], secrets := s.secrets + 1)
       case _ => s)
    case ExchangeCheck(w, client, code, verifier) =>
      var g := ByCode(s.grants, code);
      if CallOf(s, w).Idle? && g.Some? && ExchangeAllowed(s, s.grants[g.value], client, verifier)
      then Go(s, w, ExchangeChecked(g.value, verifier)) else s
    case ExchangeTime(w) =>
      (match CallOf(s, w)
       case ExchangeChecked(g, verifier) => Go(s, w, ExchangeTimed(g, verifier, s.clock))
       case _ => s)
    case ExchangeCommit(w) =>
      (match CallOf(s, w)
       case ExchangeTimed(g, verifier, now) =>
         if g < |s.grants| && CanConsume(s.grants[g], now) then
           Go(s, w, Idle).(grants := s.grants[g := Consumed(s.grants[g], s.secrets)], secrets := s.secrets + 1,
                           exchanges := s.exchanges + [Exchange(g, s.secrets, verifier, s.grants[g].code)])
         else Go(s, w, Idle)
       case _ => s)
    case DisconnectCheck(w, token) =>
      var g := Accepted(s, token);
      if CallOf(s, w).Idle? && g.Some? then Go(s, w, DisconnectChecked(g.value)) else s
    case DisconnectCommit(w) =>
      (match CallOf(s, w)
       case DisconnectChecked(g) =>
         if g < |s.grants| then Go(s, w, Idle).(grants := s.grants[g := Revoked(s.grants[g])]) else s
       case _ => s)
    case LogoutUpdate(w, parent) =>
      if CallOf(s, w).Idle? && LoginOk(s, parent) then Go(s, w, LogoutUpdated(parent, |s.grants|)) else s
    case LogoutCommit(w) =>
      (match CallOf(s, w)
       case LogoutUpdated(parent, seen) =>
         Go(s, w, Idle).(loggedOut := s.loggedOut + {parent}, grants := RevokeFirst(s.grants, parent, seen))
       case _ => s)
  }

  function Exec(s: State, steps: seq<Step>): State
    decreases steps
  {
    if steps == [] then s else Exec(Next(s, steps[0]), steps[1..])
  }

  // ----- the invariant

  predicate GrantOk(s: State, grant: Grant) {
    && grant.code < s.secrets && (grant.token.Some? ==> grant.token.value < s.secrets)
    && (grant.consumed <==> grant.token.Some?)
    && grant.born <= s.clock
    && grant.expires == Min(grant.parent.exp, grant.born + SESSION_SECONDS)
    && grant.codeExpires == Min(grant.born + CODE_SECONDS, grant.expires)
  }

  ghost predicate GrantsOk(s: State) {
    forall i :: 0 <= i < |s.grants| ==> GrantOk(s, s.grants[i])
  }

  ghost predicate SecretsDiffer(grants: seq<Grant>) {
    && (forall i, j :: 0 <= i < j < |grants| ==> grants[i].code != grants[j].code)
    && (forall i, j :: 0 <= i < j < |grants| && grants[i].token.Some? ==> grants[i].token != grants[j].token)
  }

  /** An exchange consumed its grant, with the verifier that the grant's challenge demands. */
  predicate ExchangeOk(s: State, x: Exchange) {
    && x.grant < |s.grants| && s.grants[x.grant].token == Some(x.token)
    && s.grants[x.grant].challenge == S256(x.verifier) && s.grants[x.grant].code == x.code
  }

  ghost predicate ExchangesOk(s: State) {
    && (forall k :: 0 <= k < |s.exchanges| ==> ExchangeOk(s, s.exchanges[k]))
    && (forall j, k :: 0 <= j < k < |s.exchanges| ==> s.exchanges[j].grant != s.exchanges[k].grant)
  }

  predicate CallOk(s: State, call: Call) {
    match call
    case AuthorizeTimed(_, _, _, now) => now <= s.clock
    case ExchangeChecked(g, verifier) => g < |s.grants| && s.grants[g].challenge == S256(verifier)
    case ExchangeTimed(g, verifier, now) => g < |s.grants| && s.grants[g].challenge == S256(verifier) && now <= s.clock
    case DisconnectChecked(g) => g < |s.grants|
    case _ => true
  }

  ghost predicate CallsOk(s: State) {
    forall w :: w in s.calls ==> CallOk(s, s.calls[w])
  }

  ghost predicate Inv(s: State) {
    GrantsOk(s) && SecretsDiffer(s.grants) && ExchangesOk(s) && CallsOk(s)
  }

  /** Grants only ever gain a token, once, and a revocation; the rest of a grant never changes. */
  predicate GrantAdvances(before: Grant, after: Grant) {
    && after == before.(token := after.token, consumed := after.consumed, revoked := after.revoked)
    && (before.revoked ==> after.revoked) && (before.consumed ==> after.consumed)
    && (before.token.Some? ==> after.token == before.token)
  }

  ghost predicate Advances(s: State, n: State) {
    && s.clock <= n.clock && s.secrets <= n.secrets && s.loggedOut <= n.loggedOut
    && |s.grants| <= |n.grants| && s.registered == n.registered
    && (forall i :: 0 <= i < |s.grants| ==> GrantAdvances(s.grants[i], n.grants[i]))
    && |s.exchanges| <= |n.exchanges| && (forall k :: 0 <= k < |s.exchanges| ==> n.exchanges[k] == s.exchanges[k])
  }

  lemma StepAdvances(s: State, step: Step)
    requires Inv(s)
    ensures Advances(s, Next(s, step))
  {
    hide ByCode, ByToken, LiveGrants, SecretsDiffer, ExchangesOk;
  }

  lemma StepKeepsGrantsOk(s: State, step: Step)
    requires GrantsOk(s) && CallsOk(s)
    ensures GrantsOk(Next(s, step))
  {
    hide ByCode, ByToken, LiveGrants, ExchangeAllowed, LoginOk, Accepted;
    var n := Next(s, step);
    if step.AuthorizeCommit? || step.ExchangeCommit? {
      assert step.w in s.calls ==> CallOk(s, s.calls[step.w]);
    }
    forall i | 0 <= i < |n.grants|
      ensures GrantOk(n, n.grants[i])
    {
      assert i < |s.grants| ==> GrantOk(s, s.grants[i]);
    }
  }

  /** A step changes at most one code or token, to the next fresh secret. */
  lemma StepKeepsSecrets(s: State, step: Step)
    requires GrantsOk(s) && SecretsDiffer(s.grants)
    ensures SecretsDiffer(Next(s, step).grants)
  {
    hide ByCode, ByToken, LiveGrants, ExchangeAllowed, LoginOk, Accepted, Min, CanConsume;
    var n := Next(s, step);
    forall i | 0 <= i < |s.grants|
      ensures s.grants[i].code < s.secrets && (s.grants[i].token.Some? ==> s.grants[i].token.value < s.secrets)
    {
      assert GrantOk(s, s.grants[i]);
    }
    hide GrantsOk, GrantOk;
  }

  lemma StepKeepsGrants(s: State, step: Step)
    requires Inv(s)
    ensures GrantsOk(Next(s, step)) && SecretsDiffer(Next(s, step).grants)
  {
    hide Next, GrantsOk, SecretsDiffer;
    StepKeepsGrantsOk(s, step);
    StepKeepsSecrets(s, step);
  }

  lemma StepKeepsExchanges(s: State, step: Step)
    requires Inv(s)
    ensures ExchangesOk(Next(s, step))
  {
    hide ByCode, ByToken, LiveGrants, SecretsDiffer;
    StepAdvances(s, step);
    if step.ExchangeCommit? && CallOf(s, step.w).ExchangeTimed? {
      assert CallOk(s, s.calls[step.w]);
    }
  }

  lemma StepKeepsCalls(s: State, step: Step)
    requires Inv(s)
    ensures CallsOk(Next(s, step))
  {
    hide ByCode, ByToken, LiveGrants, SecretsDiffer, ExchangesOk;
    StepAdvances(s, step);
    var n := Next(s, step);
    forall w | w in n.calls
      ensures CallOk(n, n.calls[w])
    {
      if w in s.calls {
        assert CallOk(s, s.calls[w]);
      }
    }
  }

  lemma StepKeepsInv(s: State, step: Step)
    requires Inv(s)
    ensures Inv(Next(s, step)) && Advances(s, Next(s, step))
  {
    hide Next;
    StepAdvances(s, step);
    StepKeepsGrants(s, step);
    StepKeepsExchanges(s, step);
    StepKeepsCalls(s, step);
  }

  lemma {:induction false} RunKeepsInv(s: State, steps: seq<Step>)
    requires Inv(s)
    ensures Inv(Exec(s, steps)) && Advances(s, Exec(s, steps))
    decreases steps
  {
    hide Next, Inv;
    if steps != [] {
      StepKeepsInv(s, steps[0]);
      RunKeepsInv(Next(s, steps[0]), steps[1..]);
    }
  }

  // ----- over all runs

  /** Every exchange, in every run, consumed its grant with the verifier behind the grant's
      challenge and with the grant's own code. */
  lemma ExchangeIsBound(clock: int, registered: set<nat>, active: set<nat>, steps: seq<Step>, k: nat)
    requires k < |Exec(Start(clock, registered, active), steps).exchanges|
    ensures var end := Exec(Start(clock, registered, active), steps); var x := end.exchanges[k];
      && x.grant < |end.grants| && end.grants[x.grant].challenge == S256(x.verifier) && end.grants[x.grant].code == x.code
      && end.grants[x.grant].consumed && end.grants[x.grant].token == Some(x.token)
  {
    RunKeepsInv(Start(clock, registered, active), steps);
    var end := Exec(Start(clock, registered, active), steps);
    assert ExchangeOk(end, end.exchanges[k]);
  }

  /** A grant is exchanged at most once. */
  lemma ExchangedOnce(clock: int, registered: set<nat>, active: set<nat>, steps: seq<Step>, j: nat, k: nat)
    requires j < k < |Exec(Start(clock, registered, active), steps).exchanges|
    ensures var end := Exec(Start(clock, registered, active), steps);
      end.exchanges[j].grant != end.exchanges[k].grant && end.exchanges[j].token != end.exchanges[k].token
  {
    RunKeepsInv(Start(clock, registered, active), steps);
  }

  /** A revoked grant, or any grant of a login that has been logged out, is never accepted again,
      whatever was in flight. This covers grants inserted after the logout. */
  lemma NeverAcceptedAgain(s: State, steps: seq<Step>, token: nat)
    requires Inv(s) && Accepted(Exec(s, steps), token).Some?
    ensures var end := Exec(s, steps); var g := Accepted(end, token).value;
      && g < |end.grants| && end.grants[g].parent !in s.loggedOut
      && (g < |s.grants| ==> !s.grants[g].revoked)
  {
    RunKeepsInv(s, steps);
  }

  /** Grant g lets token in at this moment: it carries the token, is consumed and not revoked, has not
      expired, its client is registered, its login is not logged out and its account is active. */
  predicate Admits(s: State, token: nat, g: nat) {
    g < |s.grants| && var grant := s.grants[g];
    && grant.token == Some(token) && grant.consumed && !grant.revoked && s.clock < grant.expires
    && grant.client in s.registered && grant.parent !in s.loggedOut && grant.parent.user in s.active
  }

  /** In every reachable state a token is accepted exactly for the one grant that admits it. */
  lemma AcceptedIff(clock: int, registered: set<nat>, active: set<nat>, steps: seq<Step>, token: nat, g: nat)
    ensures Accepted(Exec(Start(clock, registered, active), steps), token) == Some(g) <==>
      Admits(Exec(Start(clock, registered, active), steps), token, g)
  {
    var end := Exec(Start(clock, registered, active), steps);
    RunKeepsInv(Start(clock, registered, active), steps);
    var found := ByToken(end.grants, token);
    hide Exec, ByToken;
  }

  /** Exactly who may disconnect, and from what. */
  lemma DisconnectIff(clock: int, registered: set<nat>, active: set<nat>, steps: seq<Step>, w: nat, token: nat, g: nat)
    requires CallOf(Exec(Start(clock, registered, active), steps), w).Idle?
    ensures var end := Exec(Start(clock, registered, active), steps);
      CallOf(Next(end, DisconnectCheck(w, token)), w) == DisconnectChecked(g) <==> Admits(end, token, g)
  {
    AcceptedIff(clock, registered, active, steps, token, g);
    var end := Exec(Start(clock, registered, active), steps);
    hide Exec, Accepted, Admits;
  }

  /** After a disconnect its token is never accepted again, whatever happens. */
  lemma DisconnectEnds(s: State, w: nat, steps: seq<Step>, token: nat)
    requires Inv(s) && CallOf(s, w).DisconnectChecked?
    requires CallOf(s, w).grant < |s.grants| && s.grants[CallOf(s, w).grant].token == Some(token)
    ensures Accepted(Exec(Next(s, DisconnectCommit(w)), steps), token).None?
  {
    var n, g := Next(s, DisconnectCommit(w)), CallOf(s, w).grant;
    StepKeepsInv(s, DisconnectCommit(w));
    RunKeepsInv(n, steps);
    assert n.grants[g].revoked && n.grants[g].token == Some(token);
    var end := Exec(n, steps);
    assert GrantAdvances(n.grants[g], end.grants[g]);
    if Accepted(end, token).Some? {
      NeverAcceptedAgain(n, steps, token);
    }
  }

  /** Exactly who may log out. */
  lemma LogoutIff(s: State, w: nat, parent: Parent)
    requires CallOf(s, w).Idle?
    ensures CallOf(Next(s, LogoutUpdate(w, parent)), w) == LogoutUpdated(parent, |s.grants|) <==>
      parent !in s.loggedOut && s.clock < parent.exp && parent.user in s.active
  {
  }

  /** A logout revokes every grant of its login that its UPDATE saw, and from then on no grant of that
      login is accepted and the login itself is not served, whatever happens. */
  lemma LogoutEnds(s: State, w: nat, steps: seq<Step>)
    requires Inv(s) && CallOf(s, w).LogoutUpdated?
    ensures var parent, n := CallOf(s, w).parent, Next(s, LogoutCommit(w)); var end := Exec(n, steps);
      && (forall i :: 0 <= i < |s.grants| && i < CallOf(s, w).seen && s.grants[i].parent == parent ==> n.grants[i].revoked)
      && (forall i :: 0 <= i < |s.grants| && s.grants[i].parent != parent ==> n.grants[i] == s.grants[i])
      && !LoginOk(end, parent)
      && forall token :: Accepted(end, token).Some? ==> end.grants[Accepted(end, token).value].parent != parent
  {
    var n := Next(s, LogoutCommit(w));
    StepKeepsInv(s, LogoutCommit(w));
    RunKeepsInv(n, steps);
    var end := Exec(n, steps);
    forall token | Accepted(end, token).Some?
      ensures end.grants[Accepted(end, token).value].parent != CallOf(s, w).parent
    {
      NeverAcceptedAgain(n, steps, token);
    }
  }

  /** The last switch of an account decides. */
  predicate ActiveAfter(active: bool, steps: seq<Step>, user: nat)
    decreases steps
  {
    if steps == [] then active
    else ActiveAfter(if steps[0].SetActive? && steps[0].user == user then steps[0].on else active, steps[1..], user)
  }

  /** Nothing but its own switch changes whether an account is active, so a deactivated account that is
      activated again is served as before. */
  lemma {:induction false} ActiveIff(s: State, steps: seq<Step>, user: nat)
    ensures user in Exec(s, steps).active <==> ActiveAfter(user in s.active, steps, user)
    decreases steps
  {
    hide ByCode, ByToken, LiveGrants;
    if steps != [] {
      ActiveIff(Next(s, steps[0]), steps[1..], user);
    }
  }

  lemma {:induction false} InactiveStays(s: State, steps: seq<Step>, user: nat)
    requires user !in s.active && forall i :: 0 <= i < |steps| ==> steps[i] != SetActive(user, true)
    ensures user !in Exec(s, steps).active
    decreases steps
  {
    hide ByCode, ByToken, LiveGrants;
    if steps != [] {
      InactiveStays(Next(s, steps[0]), steps[1..], user);
    }
  }

  /** Once an account is set inactive, and until it is set active again, none of its tokens is
      accepted, none of its codes passes the exchange check and none of its logins is served. */
  lemma InactiveIsShutOut(s: State, steps: seq<Step>, user: nat)
    requires forall i :: 0 <= i < |steps| ==> steps[i] != SetActive(user, true)
    ensures var end := Exec(Next(s, SetActive(user, false)), steps);
      && (forall token :: Accepted(end, token).Some? ==> end.grants[Accepted(end, token).value].parent.user != user)
      && (forall g, client, verifier :: 0 <= g < |end.grants| && ExchangeAllowed(end, end.grants[g], client, verifier) ==>
            end.grants[g].parent.user != user)
      && (forall parent: Parent :: LoginOk(end, parent) ==> parent.user != user)
  {
    InactiveStays(Next(s, SetActive(user, false)), steps, user);
    var end := Exec(Next(s, SetActive(user, false)), steps);
    hide Exec, Next;
    forall token | Accepted(end, token).Some?
      ensures end.grants[Accepted(end, token).value].parent.user != user
    {
      assert ByToken(end.grants, token).Some?;
    }
  }

  /** Exactly when an exchange check passes: an unused, unrevoked, unexpired code, presented by the
      registered client it was issued to with the verifier behind its challenge, for a login that is
      not logged out and an active account. */
  lemma ExchangeCheckIff(clock: int, registered: set<nat>, active: set<nat>, steps: seq<Step>, w: nat, client: nat, code: nat, verifier: nat, g: nat)
    requires CallOf(Exec(Start(clock, registered, active), steps), w).Idle?
    ensures var end := Exec(Start(clock, registered, active), steps);
      CallOf(Next(end, ExchangeCheck(w, client, code, verifier)), w) == ExchangeChecked(g, verifier) <==>
        g < |end.grants| && var grant := end.grants[g];
        && grant.code == code && grant.client == client && client in end.registered && grant.challenge == S256(verifier)
        && !grant.consumed && !grant.revoked && end.clock < grant.codeExpires && end.clock < grant.expires
        && grant.parent !in end.loggedOut && grant.parent.user in end.active
  {
    var end := Exec(Start(clock, registered, active), steps);
    RunKeepsInv(Start(clock, registered, active), steps);
    var found := ByCode(end.grants, code);
    hide Exec, ByCode, ByToken;
  }

  /** Exactly which login is served. */
  lemma AuthorizeCheckIff(s: State, w: nat, parent: Parent, client: nat, challenge: Challenge)
    requires CallOf(s, w).Idle?
    ensures CallOf(Next(s, AuthorizeCheck(w, parent, client, challenge)), w) == AuthorizeChecked(parent, client, challenge) <==>
      parent !in s.loggedOut && s.clock < parent.exp && parent.user in s.active && client in s.registered
  {
  }

  ghost function LiveAt(grants: seq<Grant>, parent: Parent, now: int): set<nat> {
    set i | 0 <= i < |grants| && grants[i].parent == parent && grants[i].expires > now :: i
  }

  lemma LiveAppend(grants: seq<Grant>, last: Grant, parent: Parent, now: int)
    ensures |LiveAt(grants + [last], parent, now)| ==
      |LiveAt(grants, parent, now)| + if last.parent == parent && last.expires > now then 1 else 0
  {
    var longer, n := grants + [last], |grants|;
    var before, after := LiveAt(grants, parent, now), LiveAt(longer, parent, now);
    assert longer[n] == last;
    forall i | i in before
      ensures i in after && i < n
    {
      assert longer[i] == grants[i];
    }
    forall i | i in after && i != n
      ensures i in before
    {
      assert longer[i] == grants[i];
    }
    hide LiveAt;
    assert after == before + if n in after then {n} else {};
  }

  lemma {:induction false} LiveGrantsIs(grants: seq<Grant>, parent: Parent, now: int)
    ensures LiveGrants(grants, parent, now) == |LiveAt(grants, parent, now)|
  {
    if grants == [] {
      assert LiveAt(grants, parent, now) == {};
    } else {
      var init, last := grants[..|grants| - 1], grants[|grants| - 1];
      LiveGrantsIs(init, parent, now);
      LiveAppend(init, last, parent, now);
      hide LiveAt;
      assert grants == init + [last];
    }
  }

  /** An authorization goes on exactly while its login has fewer than twenty live grants. */
  lemma AuthorizeTimeIff(s: State, w: nat)
    requires CallOf(s, w).AuthorizeChecked?
    ensures var call, next := CallOf(s, w), CallOf(Next(s, AuthorizeTime(w)), w);
      if |LiveAt(s.grants, call.parent, s.clock)| < 20
      then next == AuthorizeTimed(call.parent, call.client, call.challenge, s.clock) else next == Idle
  {
    LiveGrantsIs(s.grants, CallOf(s, w).parent, s.clock);
    hide LiveGrants, LiveAt;
  }

  /** What an authorization issues: one fresh grant for that login, client and challenge, usable for
      ninety seconds and accepted for eight hours at most, never beyond the login. */
  lemma AuthorizeIssues(s: State, w: nat)
    requires CallOf(s, w).AuthorizeTimed?
    ensures var call, n := CallOf(s, w), Next(s, AuthorizeCommit(w));
      && |n.grants| == |s.grants| + 1 && n.grants[..|s.grants|] == s.grants && n.secrets == s.secrets + 1
      && var g := n.grants[|s.grants|];
      && g.parent == call.parent && g.client == call.client && g.challenge == call.challenge && g.code == s.secrets
      && !g.consumed && !g.revoked && g.token.None? && g.born == call.now
      && g.codeExpires <= g.expires <= call.parent.exp && g.codeExpires <= call.now + 90 && g.expires <= call.now + 28800
      && (g.expires == call.parent.exp || g.expires == call.now + 28800)
      && (g.codeExpires == call.now + 90 || g.codeExpires == g.expires)
  {
  }

  /** An accepted session lies before its login's expiry and within eight hours of the
      authorization, and its token belongs to no other grant. */
  lemma AcceptedIsFresh(clock: int, registered: set<nat>, active: set<nat>, steps: seq<Step>, token: nat)
    requires Accepted(Exec(Start(clock, registered, active), steps), token).Some?
    ensures var end := Exec(Start(clock, registered, active), steps); var g := Accepted(end, token).value;
      && g < |end.grants| && var grant := end.grants[g];
      && grant.born <= end.clock < grant.parent.exp && end.clock < grant.born + SESSION_SECONDS
      && grant.consumed && grant.client in registered
      && forall h :: 0 <= h < |end.grants| && end.grants[h].token == Some(token) ==> h == g
  {
    RunKeepsInv(Start(clock, registered, active), steps);
    var end := Exec(Start(clock, registered, active), steps);
    assert GrantOk(end, end.grants[Accepted(end, token).value]);
  }

  /** A code is only ever consumed within ninety seconds of its authorization, by the clock
      reading that its UPDATE carries, and never once revoked. */
  lemma ConsumedInTime(s: State, w: nat)
    requires Inv(s) && |Next(s, ExchangeCommit(w)).exchanges| > |s.exchanges|
    ensures CallOf(s, w).ExchangeTimed? && CallOf(s, w).grant < |s.grants|
    ensures var grant := s.grants[CallOf(s, w).grant];
      CallOf(s, w).now < grant.born + CODE_SECONDS && CallOf(s, w).now < grant.parent.exp && !grant.revoked && !grant.consumed
  {
    assert CallOk(s, s.calls[w]);
    assert GrantOk(s, s.grants[s.calls[w].grant]);
  }

  // ----- logout against an exchange in flight

  /** An exchange checked before a logout commits can still succeed at any time after it, whatever
      happens in between, exactly when its grant was inserted after the logout's UPDATE, could be
      consumed at the time of the reading it carries, and was not touched since. The token it
      hands out is never accepted. */
  lemma ExchangeAfterLogoutIff(s: State, w: nat, between: seq<Step>, v: nat, after: seq<Step>)
    requires Inv(s) && CallOf(s, w).LogoutUpdated? && CallOf(s, v).ExchangeTimed?
    requires s.grants[CallOf(s, v).grant].parent == CallOf(s, w).parent
    requires CallOf(Exec(Next(s, LogoutCommit(w)), between), v) == CallOf(s, v)
    ensures var g := CallOf(s, v).grant; var e := Exec(Next(s, LogoutCommit(w)), between); var n := Next(e, ExchangeCommit(v));
      && g < |e.grants|
      && (|n.exchanges| > |e.exchanges| <==>
            CallOf(s, w).seen <= g && CanConsume(s.grants[g], CallOf(s, v).now) && e.grants[g] == s.grants[g])
      && (|n.exchanges| > |e.exchanges| ==>
            n.exchanges[|e.exchanges|].grant == g && Accepted(Exec(n, after), n.exchanges[|e.exchanges|].token) == None)
  {
    hide ByToken, ByCode, SecretsDiffer;
    var g := CallOf(s, v).grant;
    assert CallOk(s, s.calls[v]);
    var m := Next(s, LogoutCommit(w));
    StepKeepsInv(s, LogoutCommit(w));
    RunKeepsInv(m, between);
    var e := Exec(m, between);
    var n := Next(e, ExchangeCommit(v));
    StepKeepsInv(e, ExchangeCommit(v));
    TouchedIff(s, m, e, g, CallOf(s, w).seen, CallOf(s, v).now);
    if |n.exchanges| > |e.exchanges| {
      LoggedOutToken(n, after, |e.exchanges|);
    }
  }

  /** What the logout and the steps after it leave of the grant. */
  lemma TouchedIff(s: State, m: State, e: State, g: nat, seen: nat, now: int)
    requires GrantsOk(s) && GrantsOk(e) && g < |s.grants| == |m.grants| && Advances(m, e)
    requires m.grants[g] == if g < seen then Revoked(s.grants[g]) else s.grants[g]
    ensures CanConsume(e.grants[g], now) <==> seen <= g && CanConsume(s.grants[g], now) && e.grants[g] == s.grants[g]
  {
    assert GrantAdvances(m.grants[g], e.grants[g]);
    assert GrantOk(e, e.grants[g]) && GrantOk(s, s.grants[g]);
  }

  lemma LoggedOutToken(s: State, steps: seq<Step>, k: nat)
    requires Inv(s) && k < |s.exchanges| && s.grants[s.exchanges[k].grant].parent in s.loggedOut
    ensures Accepted(Exec(s, steps), s.exchanges[k].token) == None
  {
    hide Exec, Next;
    RunKeepsInv(s, steps);
    var end, x := Exec(s, steps), s.exchanges[k];
    assert ExchangeOk(end, end.exchanges[k]);
    assert GrantAdvances(s.grants[x.grant], end.grants[x.grant]);
    if Accepted(end, x.token).Some? {
      NeverAcceptedAgain(s, steps, x.token);
    }
  }

  lemma ExecTwo(s: State, steps: seq<Step>)
    requires |steps| >= 2
    ensures Exec(s, steps) == Exec(Next(Next(s, steps[0]), steps[1]), steps[2..])
  {
    hide Next;
    assert steps[1..][1..] == steps[2..] && steps[1..][0] == steps[1];
  }

  const Login: Parent := Parent(7, 1, 100000)

  const LogoutRace: seq<Step> := [
    AuthorizeCheck(0, Login, 5, S256(9)), AuthorizeTime(0), LogoutUpdate(1, Login), AuthorizeCommit(0),
    ExchangeCheck(2, 5, 0, 9), ExchangeTime(2), LogoutCommit(1), ExchangeCommit(2)]

  /** Such an exchange is reachable. */
  lemma LogoutRaceIsReachable()
    ensures var end := Exec(Start(0, {5}, {1}), LogoutRace);
      end.loggedOut == {Login} && end.exchanges == [Exchange(0, 1, 9, 0)] && Accepted(end, 1) == None
  {
    hide Next, Accepted;
    var s0 := Start(0, {5}, {1});
    ExecTwo(s0, LogoutRace);
    ExecTwo(Next(Next(s0, LogoutRace[0]), LogoutRace[1]), LogoutRace[2..]);
    var s4 := RaceFirstHalf();
    ExecTwo(s4, LogoutRace[4..]);
    ExecTwo(Next(Next(s4, LogoutRace[4]), LogoutRace[5]), LogoutRace[6..]);
    assert LogoutRace[2..][2..] == LogoutRace[4..] && LogoutRace[4..][2..] == LogoutRace[6..] && LogoutRace[6..][2..] == [];
    RaceSecondHalf(s4);
  }

  lemma RaceFirstHalf() returns (s4: State)
    ensures s4 == Next(Next(Next(Next(Start(0, {5}, {1}), LogoutRace[0]), LogoutRace[1]), LogoutRace[2]), LogoutRace[3])
    ensures s4 == State(0, {5}, {1}, {}, [NewGrant(Login, 5, S256(9), 0, 0)], 1, [], map[0 := Idle, 1 := LogoutUpdated(Login, 0)])
  {
    var s0 := Start(0, {5}, {1});
    var s2 := Next(Next(s0, LogoutRace[0]), LogoutRace[1]);
    assert s2.calls == map[0 := AuthorizeTimed(Login, 5, S256(9), 0)];
    s4 := Next(Next(s2, LogoutRace[2]), LogoutRace[3]);
    assert s4.calls == map[0 := Idle, 1 := LogoutUpdated(Login, 0)];
  }

  lemma RaceSecondHalf(s4: State)
    requires s4 == State(0, {5}, {1}, {}, [NewGrant(Login, 5, S256(9), 0, 0)], 1, [], map[0 := Idle, 1 := LogoutUpdated(Login, 0)])
    ensures var end := Next(Next(Next(Next(s4, LogoutRace[4]), LogoutRace[5]), LogoutRace[6]), LogoutRace[7]);
      end.loggedOut == {Login} && end.exchanges == [Exchange(0, 1, 9, 0)] && Accepted(end, 1) == None
  {
    var grant := NewGrant(Login, 5, S256(9), 0, 0);
    var s6 := Next(Next(s4, LogoutRace[4]), LogoutRace[5]);
    assert s6.calls[2] == ExchangeTimed(0, 9, 0) && s6.calls[1] == LogoutUpdated(Login, 0);
    var s7 := Next(s6, LogoutRace[6]);
    assert s7.grants == [grant] && s7.loggedOut == {Login};
  }
}
