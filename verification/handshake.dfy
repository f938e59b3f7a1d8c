/** What one connection does from start to end, from any state: requests lapse, sessions come only
    from answers to them, and an undisturbed handshake succeeds. */
module Handshakes {
  import opened Wrappers
  import Grants
  import opened Connections

  /** `begin` stores its request before the tab exists, and again with the tab; until then no message
      passes the guard. */
  lemma BeginStores(s: State, h: nat, tab: nat)
    requires HandlerOf(s, h).Cleared?
    ensures var n := Next(s, BeginStore(h)); var m := Next(n, BeginTab(h, tab));
      && n.storage.pending == Some(Request(s.begins, None, s.server.clock + 300)) && n.storage.session == s.storage.session
      && (forall t, state, now :: !Matches(n.storage, t, state, now))
      && m.storage.pending == Some(Request(s.begins, Some(tab), s.server.clock + 300)) && m.storage.session == s.storage.session
      && HandlerOf(m, h).Idle? && m.begins == s.begins + 1
  {
  }

  /** Exactly when `complete` passes its guard, and with which request. */
  lemma CompleteIff(s: State, h: nat, tab: nat, state: nat, code: nat, request: Request)
    requires HandlerOf(s, h).Idle?
    ensures HandlerOf(Next(s, Complete(h, tab, state, code)), h) == Matched(request, code) <==>
      && s.storage.pending == Some(request)
      && request.tab == Some(tab) && request.begin == state && s.server.clock < request.expires
  {
  }

  // ----- a request lapses five minutes after its `begin`

  predicate HeldDated(handler: Handler, begin: nat, expires: int) {
    match handler
    case Opened(request) => request.begin == begin ==> request.expires == expires
    case Matched(request, _) => request.begin == begin ==> request.expires == expires
    case _ => true
  }

  /** Every copy of request `begin` carries this expiry. */
  ghost predicate Dated(s: State, begin: nat, expires: int) {
    && begin < s.begins
    && (s.storage.pending.Some? && s.storage.pending.value.begin == begin ==> s.storage.pending.value.expires == expires)
    && forall h :: h in s.handlers ==> HeldDated(s.handlers[h], begin, expires)
  }

  lemma StepKeepsDated(s: State, step: Step, begin: nat, expires: int)
    requires Dated(s, begin, expires)
    ensures Dated(Next(s, step), begin, expires)
  {
    hide Grants.Next, SessionFrom;
    var n := Next(s, step);
    forall h | h in n.handlers
      ensures HeldDated(n.handlers[h], begin, expires)
    {
      assert h in s.handlers ==> HeldDated(s.handlers[h], begin, expires);
    }
  }

  lemma {:induction false} RunKeepsDated(s: State, steps: seq<Step>, begin: nat, expires: int)
    requires Dated(s, begin, expires)
    ensures Dated(Exec(s, steps), begin, expires)
    decreases steps
  {
    hide Next, Dated;
    if steps != [] {
      StepKeepsDated(s, steps[0], begin, expires);
      RunKeepsDated(Next(s, steps[0]), steps[1..], begin, expires);
    }
  }

  /** Whatever happens after a `begin` has stored its request, a message with its state passes the
      guard only within the next 300 seconds. */
  lemma RequestLapses(s: State, h: nat, steps: seq<Step>, tab: nat)
    requires Inv(s) && HandlerOf(s, h).Cleared?
    ensures var end := Exec(Next(s, BeginStore(h)), steps);
      Matches(end.storage, tab, s.begins, end.server.clock) ==> end.server.clock < s.server.clock + 300
  {
    var n := Next(s, BeginStore(h));
    forall g | g in n.handlers
      ensures HeldDated(n.handlers[g], s.begins, s.server.clock + 300)
    {
      assert g in s.handlers ==> HandlerOk(s, s.handlers[g]);
    }
    RunKeepsDated(n, steps, s.begins, s.server.clock + 300);
  }

  // ----- where sessions come from

  /** A session appears only when a handler stores one that it received. */
  lemma SessionsAreStored(s: State, step: Step)
    requires Next(s, step).storage.session.Some? && Next(s, step).storage.session != s.storage.session
    ensures step.Store? && HandlerOf(s, step.h) == Received(Next(s, step).storage.session.value)
  {
    hide Grants.Next, SessionFrom;
  }

  /** What a handler receives: the token, user and expiry of the grant that was exchanged for its own
      code and verifier, unless that has already expired. */
  lemma ReceiveIff(s: State, h: nat, k: nat)
    requires Inv(s) && HandlerOf(s, h).Sent? && k < |s.server.exchanges|
    ensures var sent, n := HandlerOf(s, h), Next(s, Receive(h, k)); var x := s.server.exchanges[k];
      && x.grant < |s.server.grants| && var grant := s.server.grants[x.grant];
      && grant.token == Some(x.token) && grant.code == x.code && grant.challenge == Grants.S256(x.verifier)
      && HandlerOf(n, h) ==
        (if x.code != sent.code || x.verifier != sent.request.begin then sent
         else if s.server.clock < grant.expires then Received(Session(x.token, grant.parent.user, grant.expires, sent.request.begin))
         else Handler.Idle)
  {
    assert Grants.ExchangeOk(s.server, s.server.exchanges[k]);
    hide HandlersOk, Agreed, Grants.GrantsOk, Grants.SecretsDiffer, Grants.CallsOk;
  }

  /** A disconnect forgets session and request, a sign-out too, and a new `begin` the old session. */
  lemma Forgets(s: State, h: nat)
    requires HandlerOf(s, h).Idle?
    ensures Next(Next(s, Step.Disconnect(h)), DisconnectRemove(h)).storage == Storage(None, None)
    ensures Next(Next(s, SignOutSession), SignOutPending).storage == Storage(None, None)
    ensures Next(Next(s, Begin(h)), BeginClear(h)).storage == Storage(s.storage.pending, None)
  {
  }

  // ----- an undisturbed handshake

  /** The server's part before the extension learns the code. */
  lemma ServerAuthorizes(s: Grants.State, w: nat, parent: Grants.Parent, client: nat, challenge: Grants.Challenge) returns (n: Grants.State)
    requires Grants.CallOf(s, w).Idle? && Grants.LoginOk(s, parent) && client in s.registered
    requires |Grants.LiveAt(s.grants, parent, s.clock)| < 20
    ensures n == Grants.Next(Grants.Next(Grants.Next(s, Grants.AuthorizeCheck(w, parent, client, challenge)), Grants.AuthorizeTime(w)), Grants.AuthorizeCommit(w))
    ensures Grants.CallOf(n, w).Idle?
    ensures n == s.(grants := s.grants + [Grants.NewGrant(parent, client, challenge, s.secrets, s.clock)], secrets := s.secrets + 1, calls := n.calls)
  {
    var a := Grants.Next(s, Grants.AuthorizeCheck(w, parent, client, challenge));
    Grants.AuthorizeTimeIff(a, w);
    hide Grants.LiveAt, Grants.LiveGrants, Grants.NewGrant;
    n := Grants.Next(Grants.Next(a, Grants.AuthorizeTime(w)), Grants.AuthorizeCommit(w));
  }

  /** And once the code and verifier come back: the newest grant is exchanged. */
  lemma ServerExchanges(s: Grants.State, w: nat, client: nat, verifier: nat) returns (n: Grants.State)
    requires Grants.CallOf(s, w).Idle? && s.grants != []
    requires var grant := s.grants[|s.grants| - 1]; Grants.ExchangeAllowed(s, grant, client, verifier)
    ensures var grant, last := s.grants[|s.grants| - 1], |s.grants| - 1;
      && n == Grants.Next(Grants.Next(Grants.Next(s, Grants.ExchangeCheck(w, client, grant.code, verifier)), Grants.ExchangeTime(w)), Grants.ExchangeCommit(w))
      && n.clock == s.clock && n.grants == s.grants[last := Grants.Consumed(grant, s.secrets)]
      && n.exchanges == s.exchanges + [Grants.Exchange(last, s.secrets, verifier, grant.code)]
  {
    var grant := s.grants[|s.grants| - 1];
    var a := Grants.Next(s, Grants.ExchangeCheck(w, client, grant.code, verifier));
    assert Grants.ByCode(s.grants, grant.code) == Some(|s.grants| - 1);
    hide Grants.ByCode, Grants.LiveGrants;
    n := Grants.Next(Grants.Next(a, Grants.ExchangeTime(w)), Grants.ExchangeCommit(w));
  }

  lemma ExecThree(s: State, a: Step, b: Step, c: Step)
    ensures Exec(s, [a, b, c]) == Next(Next(Next(s, a), b), c)
  {
    hide Next;
    assert [a, b, c][1..] == [b, c] && [b, c][1..] == [c] && [c][1..] == [];
    assert Exec(s, [a, b, c]) == Exec(Next(s, a), [b, c]) == Exec(Next(Next(s, a), b), [c]);
  }

  lemma {:induction false} ExecThen(s: State, first: seq<Step>, second: seq<Step>)
    ensures Exec(s, first + second) == Exec(Exec(s, first), second)
    decreases first
  {
    hide Next;
    if first == [] {
      assert first + second == second;
    } else {
      assert (first + second)[1..] == first[1..] + second;
      ExecThen(Next(s, first[0]), first[1..], second);
    }
  }

  lemma Opens(s: State, h: nat, tab: nat) returns (n: State)
    requires HandlerOf(s, h).Idle?
    ensures n == Exec(Exec(s, [Begin(h), BeginClear(h), BeginStore(h)]), [BeginTab(h, tab)])
    ensures HandlerOf(n, h).Idle? && n.server == s.server && n.begins == s.begins + 1
    ensures n.storage == Storage(Some(Request(s.begins, Some(tab), s.server.clock + 300)), None)
  {
    ExecThree(s, Begin(h), BeginClear(h), BeginStore(h));
    var m := Exec(s, [Begin(h), BeginClear(h), BeginStore(h)]);
    n := Next(m, BeginTab(h, tab));
    assert [BeginTab(h, tab)][1..] == [];
    assert Exec(m, [BeginTab(h, tab)]) == Exec(n, []);
  }

  lemma ServerSteps(s: State, a: Grants.Step, b: Grants.Step, c: Grants.Step)
    ensures Exec(s, [Server(a), Server(b), Server(c)]) == s.(server := Grants.Next(Grants.Next(Grants.Next(s.server, a), b), c))
  {
    ExecThree(s, Server(a), Server(b), Server(c));
    hide Grants.Next;
  }

  lemma Sends(s: State, h: nat, tab: nat, code: nat)
    requires HandlerOf(s, h).Idle? && s.storage.pending.Some?
    requires var request := s.storage.pending.value; request.tab == Some(tab) && s.server.clock < request.expires
    ensures var request := s.storage.pending.value; var n := Exec(s, [Complete(h, tab, request.begin, code), CompleteRemove(h), Send(h)]);
      n.server == s.server && n.storage.pending.None? && HandlerOf(n, h) == Sent(request, code)
  {
    ExecThree(s, Complete(h, tab, s.storage.pending.value.begin, code), CompleteRemove(h), Send(h));
  }

  lemma Connects(s: State, h: nat, k: nat)
    requires HandlerOf(s, h).Sent? && Answers(s.server, k, HandlerOf(s, h).request.begin, HandlerOf(s, h).code)
    requires SessionFrom(s.server, k, HandlerOf(s, h).request.begin).Some?
    ensures Exec(s, [Receive(h, k), Store(h), Store(h)]).storage.session == SessionFrom(s.server, k, HandlerOf(s, h).request.begin)
  {
    ExecThree(s, Receive(h, k), Store(h), Store(h));
    hide SessionFrom, Answers;
  }

  /** From every state with an idle handler, an idle endpoint and a served login below its limit, an
      undisturbed handshake ends with a session for that user, lasting eight hours or as long as the
      login, whose verifier is the one of this `begin`. */
  lemma HandshakeConnects(s: State, h: nat, w: nat, tab: nat, parent: Grants.Parent, client: nat) returns (steps: seq<Step>)
    requires HandlerOf(s, h).Idle? && Grants.CallOf(s.server, w).Idle? && Grants.LoginOk(s.server, parent) && client in s.server.registered
    requires |Grants.LiveAt(s.server.grants, parent, s.server.clock)| < 20
    ensures Exec(s, steps).storage.session ==
      Some(Session(s.server.secrets + 1, parent.user, Grants.Min(parent.exp, s.server.clock + 28800), s.begins))
  {
    hide Next, Exec, Grants.Next, Grants.LiveAt;
    var first := [Begin(h), BeginClear(h), BeginStore(h)];
    var ready := Opens(s, h, tab);
    var begin, code := s.begins, s.server.secrets;
    var authorized := ServerAuthorizes(ready.server, w, parent, client, Grants.S256(begin));
    var asking := [Server(Grants.AuthorizeCheck(w, parent, client, Grants.S256(begin))), Server(Grants.AuthorizeTime(w)), Server(Grants.AuthorizeCommit(w))];
    ServerSteps(ready, asking[0].step, asking[1].step, asking[2].step);
    var asked := Exec(ready, asking);
    assert asked == ready.(server := authorized);
    var sending := [Complete(h, tab, begin, code), CompleteRemove(h), Send(h)];
    Sends(asked, h, tab, code);
    var sent := Exec(asked, sending);
    var exchanged := ServerExchanges(authorized, w, client, begin);
    var exchanging := [Server(Grants.ExchangeCheck(w, client, code, begin)), Server(Grants.ExchangeTime(w)), Server(Grants.ExchangeCommit(w))];
    ServerSteps(sent, exchanging[0].step, exchanging[1].step, exchanging[2].step);
    var answered := Exec(sent, exchanging);
    assert answered == sent.(server := exchanged);
    var k := |authorized.exchanges|;
    var storing := [Receive(h, k), Store(h), Store(h)];
    Connects(answered, h, k);
    steps := first + ([BeginTab(h, tab)] + (asking + (sending + (exchanging + storing))));
    ExecThen(s, first, [BeginTab(h, tab)] + (asking + (sending + (exchanging + storing))));
    ExecThen(Exec(s, first), [BeginTab(h, tab)], asking + (sending + (exchanging + storing)));
    ExecThen(ready, asking, sending + (exchanging + storing));
    ExecThen(asked, sending, exchanging + storing);
    ExecThen(sent, exchanging, storing);
  }
}
