/** The extension side of the connection, run against the server's grant machine: concurrent
    message handlers over one session storage. */
module Connections {
  import opened Wrappers
  import Grants

  const REQUEST_SECONDS: int := 5 * 60

  /** `begin` numbers the call that created the request; its verifier and state are secrets of that
      call and are named by the same number. */
  datatype Request = Request(begin: nat, tab: Option<nat>, expires: int)

  datatype Session = Session(token: nat, user: nat, expires: int, begin: nat)

  datatype Storage = Storage(pending: Option<Request>, session: Option<Session>)

  /** The guard shared by `connection-details` and `complete`. */
  predicate Matches(storage: Storage, tab: nat, state: nat, now: int) {
    storage.pending.Some? && storage.pending.value.tab == Some(tab) && storage.pending.value.begin == state
    && storage.pending.value.expires > now
  }

  // ----- the machine

  datatype Handler =
    | Idle
    | Clearing
    | Cleared
    | Opened(request: Request)
    | Matched(request: Request, code: nat)
    | Removed(request: Request, code: nat)
    | Sent(request: Request, code: nat)
    | Received(session: Session)
    | Disconnecting

  datatype State = State(
    server: Grants.State, storage: Storage, begins: nat, sends: seq<nat>, handlers: map<nat, Handler>)

  function Start(clock: int, registered: set<nat>, active: set<nat>): State {
    State(Grants.Start(clock, registered, active), Storage(None, None), 0, [], map[])
  }

  datatype Step =
    | Server(step: Grants.Step)
    | Begin(h: nat)
    | BeginClear(h: nat)
    | BeginStore(h: nat)
    | BeginTab(h: nat, tab: nat)
    | Complete(h: nat, tab: nat, state: nat, code: nat)
    | CompleteRemove(h: nat)
    | Send(h: nat)
    | Receive(h: nat, k: nat)
    | Store(h: nat)
    | Disconnect(h: nat)
    | DisconnectRemove(h: nat)
    | SignOutSession
    | SignOutPending
    | Fail(h: nat)

  function HandlerOf(s: State, h: nat): Handler {
    if h in s.handlers then s.handlers[h] else Idle
  }

  function Go(s: State, h: nat, handler: Handler): State {
    s.(handlers := s.handlers[h := handler])
  }

  /** The response to an exchange request carries what the server recorded for that code and
      verifier. */
  function SessionFrom(server: Grants.State, k: nat, begin: nat): Option<Session> {
    if k < |server.exchanges| && server.exchanges[k].grant < |server.grants| then
      var x := server.exchanges[k]; var grant := server.grants[x.grant];
      if grant.expires > server.clock then Some(Session(x.token, grant.parent.user, grant.expires, begin)) else None
    else None
  }

  predicate Answers(server: Grants.State, k: nat, begin: nat, code: nat) {
    k < |server.exchanges| && server.exchanges[k].verifier == begin && server.exchanges[k].code == code
  }

  function Next(s: State, step: Step): State {
    match step
    case Server(step) => s.(server := Grants.Next(s.server, step))
    case Begin(h) => if HandlerOf(s, h).Idle? then Go(s, h, Clearing) else s
    case BeginClear(h) =>
      if HandlerOf(s, h).Clearing? then Go(s, h, Cleared).(storage := s.storage.(session := None)) else s
    case BeginStore(h) =>
      if HandlerOf(s, h).Cleared? then
        var request := Request(s.begins, None, s.server.clock + REQUEST_SECONDS);
        Go(s, h, Opened(request)).(begins := s.begins + 1, storage := s.storage.(pending := Some(request)))
      else s
    case BeginTab(h, tab) =>
      (match HandlerOf(s, h)
       case Opened(request) => Go(s, h, Idle).(storage := s.storage.(pending := Some(request.(tab := Some(tab)))))
       case _ => s)
    case Complete(h, tab, state, code) =>
      if HandlerOf(s, h).Idle? && Matches(s.storage, tab, state, s.server.clock)
      then Go(s, h, Matched(s.storage.pending.value, code)) else s
    case CompleteRemove(h) =>
      (match HandlerOf(s, h)
       case Matched(request, code) => Go(s, h, Removed(request, code)).(storage := s.storage.(pending := None))
       case _ => s)
    case Send(h) =>
      (match HandlerOf(s, h)
       case Removed(request, code) => Go(s, h, Sent(request, code)).(sends := s.sends + [request.begin])
       case _ => s)
    case Receive(h, k) =>
      (match HandlerOf(s, h)
       case Sent(request, code) =>
         if !Answers(s.server, k, request.begin, code) then s
         else
           var session := SessionFrom(s.server, k, request.begin);
           Go(s, h, if session.Some? then Received(session.value) else Idle)
       case _ => s)
    case Store(h) =>
      (match HandlerOf(s, h)
       case Received(session) => Go(s, h, Idle).(storage := s.storage.(session := Some(session)))
       case _ => s)
    case Disconnect(h) => if HandlerOf(s, h).Idle? then Go(s, h, Disconnecting) else s
    case DisconnectRemove(h) =>
      if HandlerOf(s, h).Disconnecting? then Go(s, h, Idle).(storage := Storage(None, None)) else s
    case SignOutSession => s.(storage := s.storage.(session := None))
    case SignOutPending => s.(storage := s.storage.(pending := None))
    case Fail(h) => s.(handlers := s.handlers - {h})
  }

  function Exec(s: State, steps: seq<Step>): State
    decreases steps
  {
    if steps == [] then s else Exec(Next(s, steps[0]), steps[1..])
  }

  // ----- agreement

  /** A consumed grant of this user with this token, whose challenge is the hash of the verifier
      made by the same `begin`, and whose exchange was asked for by a `complete`. */
  predicate BackedBy(s: State, session: Session, g: nat) {
    g < |s.server.grants| && var grant := s.server.grants[g];
    && grant.consumed && grant.token == Some(session.token)
    && grant.parent.user == session.user && grant.expires == session.expires
    && grant.challenge == Grants.S256(session.begin)
    && session.begin < s.begins && session.begin in s.sends
  }

  ghost predicate Agreed(s: State, session: Session) {
    exists g: nat :: BackedBy(s, session, g)
  }

  ghost predicate HandlerOk(s: State, handler: Handler) {
    match handler
    case Opened(request) => request.begin < s.begins
    case Matched(request, _) => request.begin < s.begins
    case Removed(request, _) => request.begin < s.begins
    case Sent(request, _) => request.begin < s.begins && request.begin in s.sends
    case Received(session) => Agreed(s, session)
    case _ => true
  }

  ghost predicate HandlersOk(s: State) {
    forall h :: h in s.handlers ==> HandlerOk(s, s.handlers[h])
  }

  ghost predicate Inv(s: State) {
    && Grants.Inv(s.server)
    && HandlersOk(s)
    && (s.storage.pending.Some? ==> s.storage.pending.value.begin < s.begins)
    && (s.storage.session.Some? ==> Agreed(s, s.storage.session.value))
  }

  /** What never shrinks. */
  ghost predicate Extends(s: State, n: State) {
    && Grants.Advances(s.server, n.server) && s.begins <= n.begins
    && (forall b :: b in s.sends ==> b in n.sends)
  }

  lemma StepExtends(s: State, step: Step)
    requires Inv(s)
    ensures Extends(s, Next(s, step)) && Grants.Inv(Next(s, step).server)
  {
    hide Grants.Next, Grants.Inv, HandlersOk, Agreed;
    if step.Server? {
      Grants.StepKeepsInv(s.server, step.step);
    }
  }

  lemma AgreedLasts(s: State, n: State, session: Session)
    requires Inv(s) && Grants.Inv(n.server) && Extends(s, n) && Agreed(s, session)
    ensures Agreed(n, session)
  {
    hide HandlersOk;
    var g: nat :| BackedBy(s, session, g);
    assert Grants.GrantAdvances(s.server.grants[g], n.server.grants[g]);
    assert BackedBy(n, session, g);
  }

  lemma HandlerLasts(s: State, n: State, handler: Handler)
    requires Inv(s) && Grants.Inv(n.server) && Extends(s, n) && HandlerOk(s, handler)
    ensures HandlerOk(n, handler)
  {
    hide Inv, Grants.Inv, Agreed, Grants.Advances;
    if handler.Received? {
      AgreedLasts(s, n, handler.session);
    }
  }

  /** A response makes an agreed session. */
  lemma ResponseIsAgreed(s: State, request: Request, code: nat, k: nat)
    requires Inv(s) && HandlerOk(s, Sent(request, code)) && Answers(s.server, k, request.begin, code)
    requires SessionFrom(s.server, k, request.begin).Some?
    ensures Agreed(s, SessionFrom(s.server, k, request.begin).value)
  {
    var x := s.server.exchanges[k];
    assert Grants.ExchangeOk(s.server, x);
    assert Grants.GrantOk(s.server, s.server.grants[x.grant]);
    assert BackedBy(s, SessionFrom(s.server, k, request.begin).value, x.grant);
  }

  lemma ActorOk(s: State, step: Step, h: nat)
    requires Inv(s) && !step.Server? && !step.SignOutSession? && !step.SignOutPending? && step.h == h
    requires h in Next(s, step).handlers
    ensures HandlerOk(Next(s, step), Next(s, step).handlers[h])
  {
    hide Agreed, Grants.Inv, Grants.Advances, Grants.Next, SessionFrom;
    var n := Next(s, step);
    StepExtends(s, step);
    assert h in s.handlers ==> HandlerOk(s, s.handlers[h]);
    if n.handlers == s.handlers {
      HandlerLasts(s, n, s.handlers[h]);
    } else if step.Receive? {
      var sent := s.handlers[h];
      var session := SessionFrom(s.server, step.k, sent.request.begin);
      if session.Some? {
        ResponseIsAgreed(s, sent.request, sent.code, step.k);
        AgreedLasts(s, n, session.value);
      }
    }
  }

  lemma StepKeepsHandlers(s: State, step: Step)
    requires Inv(s)
    ensures HandlersOk(Next(s, step))
  {
    hide Agreed, Grants.Inv, Grants.Advances, Grants.Next, HandlerOk, SessionFrom;
    var n := Next(s, step);
    StepExtends(s, step);
    forall h | h in n.handlers
      ensures HandlerOk(n, n.handlers[h])
    {
      if !step.Server? && !step.SignOutSession? && !step.SignOutPending? && step.h == h {
        ActorOk(s, step, h);
      } else {
        assert HandlerOk(s, s.handlers[h]);
        HandlerLasts(s, n, s.handlers[h]);
      }
    }
  }

  lemma StepKeepsInv(s: State, step: Step)
    requires Inv(s)
    ensures Inv(Next(s, step))
  {
    hide Agreed, Grants.Inv, Grants.Advances, Grants.Next, SessionFrom;
    var n := Next(s, step);
    StepExtends(s, step);
    StepKeepsHandlers(s, step);
    if n.storage.session.Some? {
      if step.Store? && n.handlers != s.handlers {
        assert HandlerOk(s, s.handlers[step.h]);
      }
      AgreedLasts(s, n, n.storage.session.value);
    }
    if step.BeginTab? && step.h in s.handlers {
      assert HandlerOk(s, s.handlers[step.h]);
    }
  }

  lemma {:induction false} RunKeepsInv(s: State, steps: seq<Step>)
    requires Inv(s)
    ensures Inv(Exec(s, steps))
    decreases steps
  {
    hide Next, Inv;
    if steps != [] {
      StepKeepsInv(s, steps[0]);
      RunKeepsInv(Next(s, steps[0]), steps[1..]);
    }
  }

  // ----- the same steps as the handlers take them

  /** The extension: its session storage and its handlers, each between two awaits. Every method is
      one uninterrupted piece of a handler; it takes exactly the machine's step and keeps the
      agreement. */
  class ConnectionHandler {
    var server: Grants.State
    var pending: Option<Request>
    var session: Option<Session>
    var begins: nat
    var sends: seq<nat>
    var handlers: map<nat, Handler>

    function Value(): State
      reads this
    {
      State(server, Storage(pending, session), begins, sends, handlers)
    }

    ghost predicate Valid()
      reads this
    {
      Inv(Value())
    }

    constructor (clock: int, registered: set<nat>, active: set<nat>)
      ensures Valid() && Value() == Start(clock, registered, active)
    {
      server, pending, session := Grants.Start(clock, registered, active), None, None;
      begins, sends, handlers := 0, [], map[];
    }

    function At(h: nat): Handler
      reads this
    {
      if h in handlers then handlers[h] else Idle
    }

    /** Anything happens on the server. */
    method ServerMoves(step: Grants.Step)
      requires Valid()
      modifies this
      ensures Valid() && Value() == Next(old(Value()), Server(step))
    {
      hide Inv;
      StepKeepsInv(Value(), Server(step));
      server := Grants.Next(server, step);
    }

    /** `begin`: the old session has been read and disconnected. */
    method BeginClear(h: nat)
      requires Valid()
      modifies this
      ensures Valid() && Value() == Next(Next(old(Value()), Step.Begin(h)), Step.BeginClear(h))
    {
      hide Inv;
      StepKeepsInv(Value(), Step.Begin(h));
      StepKeepsInv(Next(Value(), Step.Begin(h)), Step.BeginClear(h));
      if At(h).Idle? || At(h).Clearing? {
        assert handlers[h := Clearing][h := Cleared] == handlers[h := Cleared];
        session := None;
        handlers := handlers[h := Cleared];
      }
    }

    /** `begin`: the new request is stored before its tab exists. */
    method BeginStore(h: nat)
      requires Valid()
      modifies this
      ensures Valid() && Value() == Next(old(Value()), Step.BeginStore(h))
    {
      hide Inv;
      StepKeepsInv(Value(), Step.BeginStore(h));
      if At(h).Cleared? {
        var request := Request(begins, None, server.clock + REQUEST_SECONDS);
        begins := begins + 1;
        pending := Some(request);
        handlers := handlers[h := Opened(request)];
      }
    }

    /** `begin`: the request is stored again with its tab. */
    method BeginTab(h: nat, tab: nat)
      requires Valid()
      modifies this
      ensures Valid() && Value() == Next(old(Value()), Step.BeginTab(h, tab))
    {
      hide Inv;
      StepKeepsInv(Value(), Step.BeginTab(h, tab));
      if At(h).Opened? {
        pending := Some(At(h).request.(tab := Some(tab)));
        handlers := handlers[h := Idle];
      }
    }

    /** `complete`: the stored request is read and passes the guard. */
    method Complete(h: nat, tab: nat, state: nat, code: nat)
      requires Valid()
      modifies this
      ensures Valid() && Value() == Next(old(Value()), Step.Complete(h, tab, state, code))
    {
      hide Inv;
      StepKeepsInv(Value(), Step.Complete(h, tab, state, code));
      if At(h).Idle? && pending.Some? && pending.value.tab == Some(tab) && pending.value.begin == state
         && pending.value.expires > server.clock {
        handlers := handlers[h := Matched(pending.value, code)];
      }
    }

    /** `complete`: whatever request is stored is removed. */
    method CompleteRemove(h: nat)
      requires Valid()
      modifies this
      ensures Valid() && Value() == Next(old(Value()), Step.CompleteRemove(h))
    {
      hide Inv;
      StepKeepsInv(Value(), Step.CompleteRemove(h));
      if At(h).Matched? {
        handlers := handlers[h := Removed(At(h).request, At(h).code)];
        pending := None;
      }
    }

    /** `complete`: the exchange request goes out. */
    method Send(h: nat)
      requires Valid()
      modifies this
      ensures Valid() && Value() == Next(old(Value()), Step.Send(h))
    {
      hide Inv;
      StepKeepsInv(Value(), Step.Send(h));
      if At(h).Removed? {
        sends := sends + [At(h).request.begin];
        handlers := handlers[h := Sent(At(h).request, At(h).code)];
      }
    }

    /** `complete`: a response to it arrives and is checked. */
    method Receive(h: nat, k: nat)
      requires Valid()
      modifies this
      ensures Valid() && Value() == Next(old(Value()), Step.Receive(h, k))
    {
      hide Inv;
      StepKeepsInv(Value(), Step.Receive(h, k));
      if At(h).Sent? && Answers(server, k, At(h).request.begin, At(h).code) {
        var answer := SessionFrom(server, k, At(h).request.begin);
        handlers := handlers[h := if answer.Some? then Received(answer.value) else Idle];
      }
    }

    /** `complete`: the session is stored. */
    method Store(h: nat)
      requires Valid()
      modifies this
      ensures Valid() && Value() == Next(old(Value()), Step.Store(h))
    {
      hide Inv;
      StepKeepsInv(Value(), Step.Store(h));
      if At(h).Received? {
        session := Some(At(h).session);
        handlers := handlers[h := Idle];
      }
    }

    /** `disconnect`, once the server has answered. */
    method Disconnect(h: nat)
      requires Valid()
      modifies this
      ensures Valid() && Value() == Next(Next(old(Value()), Step.Disconnect(h)), Step.DisconnectRemove(h))
    {
      hide Inv;
      StepKeepsInv(Value(), Step.Disconnect(h));
      StepKeepsInv(Next(Value(), Step.Disconnect(h)), Step.DisconnectRemove(h));
      if At(h).Idle? || At(h).Disconnecting? {
        assert handlers[h := Handler.Disconnecting][h := Idle] == handlers[h := Idle];
        pending, session := None, None;
        handlers := handlers[h := Idle];
      }
    }

    /** The platform signed out. */
    method SignedOut()
      requires Valid()
      modifies this
      ensures Valid() && Value() == Next(Next(old(Value()), SignOutSession), SignOutPending)
    {
      hide Inv;
      StepKeepsInv(Value(), SignOutSession);
      StepKeepsInv(Next(Value(), SignOutSession), SignOutPending);
      session := None;
      pending := None;
    }
  }

  /** Whenever the extension holds a session, the server agrees about it. */
  lemma SessionsAgree(clock: int, registered: set<nat>, active: set<nat>, steps: seq<Step>)
    requires Exec(Start(clock, registered, active), steps).storage.session.Some?
    ensures Agreed(Exec(Start(clock, registered, active), steps), Exec(Start(clock, registered, active), steps).storage.session.value)
  {
    RunKeepsInv(Start(clock, registered, active), steps);
  }

  // ----- one exchange per request

  /** No second `complete` reads a request between another's read and removal of it. */
  predicate Apart(s: State, step: Step) {
    step.Complete? && HandlerOf(s, step.h).Idle? && Matches(s.storage, step.tab, step.state, s.server.clock)
    ==> forall h :: h in s.handlers && s.handlers[h].Matched? ==> s.handlers[h].request.begin != s.storage.pending.value.begin
  }

  predicate ApartRun(s: State, steps: seq<Step>)
    decreases steps
  {
    steps != [] ==> Apart(s, steps[0]) && ApartRun(Next(s, steps[0]), steps[1..])
  }

  function Holding(handler: Handler): Option<nat> {
    match handler
    case Opened(request) => Some(request.begin)
    case Matched(request, _) => Some(request.begin)
    case Removed(request, _) => Some(request.begin)
    case _ => None
  }

  /** A request on its way to the exchange has not been sent yet. */
  ghost predicate Unsent(s: State) {
    forall h :: h in s.handlers && Holding(s.handlers[h]).Some? ==>
      Holding(s.handlers[h]).value < s.begins && Holding(s.handlers[h]).value !in s.sends
  }

  ghost predicate OneHolder(s: State) {
    forall g, h :: g in s.handlers && h in s.handlers && g != h && Holding(s.handlers[g]).Some?
      ==> Holding(s.handlers[g]) != Holding(s.handlers[h])
  }

  ghost predicate SendsDiffer(s: State) {
    && (forall i, j :: 0 <= i < j < |s.sends| ==> s.sends[i] != s.sends[j])
    && (forall b :: b in s.sends ==> b < s.begins)
  }

  /** A request stored with its tab is at most read, never removed or sent. */
  ghost predicate StoredOk(s: State) {
    s.storage.pending.Some? ==>
      var request := s.storage.pending.value;
      request.begin < s.begins && (request.tab.Some? ==> request.begin !in s.sends && OnlyRead(s, request.begin))
  }

  ghost predicate OnlyRead(s: State, begin: nat) {
    forall h :: h in s.handlers && Holding(s.handlers[h]) == Some(begin) ==> s.handlers[h].Matched?
  }

  ghost predicate Single(s: State) {
    Unsent(s) && OneHolder(s) && SendsDiffer(s) && StoredOk(s)
  }

  lemma StepKeepsUnsent(s: State, step: Step)
    requires Single(s) && Apart(s, step)
    ensures Unsent(Next(s, step))
  {
    hide Grants.Next, SessionFrom, OnlyRead;
    var n := Next(s, step);
    forall h | h in n.handlers && Holding(n.handlers[h]).Some?
      ensures Holding(n.handlers[h]).value < n.begins && Holding(n.handlers[h]).value !in n.sends
    {
      if h in s.handlers && Holding(s.handlers[h]).Some? {
        assert Holding(s.handlers[h]).value !in s.sends;
      }
    }
  }

  lemma StepKeepsOneHolder(s: State, step: Step)
    requires Single(s) && Apart(s, step)
    ensures OneHolder(Next(s, step))
  {
    hide Grants.Next, SessionFrom, SendsDiffer;
    var n := Next(s, step);
    forall g, h | g in n.handlers && h in n.handlers && g != h && Holding(n.handlers[g]).Some?
      ensures Holding(n.handlers[g]) != Holding(n.handlers[h])
    {
    }
  }

  lemma StepKeepsSends(s: State, step: Step)
    requires Single(s)
    ensures SendsDiffer(Next(s, step))
  {
    hide Grants.Next, SessionFrom, StoredOk, OneHolder;
  }

  lemma StepKeepsStored(s: State, step: Step)
    requires Single(s)
    ensures StoredOk(Next(s, step))
  {
    hide Grants.Next, SessionFrom;
  }

  lemma StepKeepsSingle(s: State, step: Step)
    requires Single(s) && Apart(s, step)
    ensures Single(Next(s, step))
  {
    hide Next, Apart, Unsent, OneHolder, SendsDiffer, StoredOk;
    StepKeepsUnsent(s, step);
    StepKeepsOneHolder(s, step);
    StepKeepsSends(s, step);
    StepKeepsStored(s, step);
  }

  lemma {:induction false} RunKeepsSingle(s: State, steps: seq<Step>)
    requires Single(s) && ApartRun(s, steps)
    ensures Single(Exec(s, steps))
    decreases steps
  {
    hide Next, Single, Apart;
    if steps != [] {
      StepKeepsSingle(s, steps[0]);
      RunKeepsSingle(Next(s, steps[0]), steps[1..]);
    }
  }

  /** If no two `complete` handlers overlap between read and removal, each pending request leads
      to at most one exchange request. */
  lemma OneExchangePerRequest(clock: int, registered: set<nat>, active: set<nat>, steps: seq<Step>, i: nat, j: nat)
    requires ApartRun(Start(clock, registered, active), steps) && i < j < |Exec(Start(clock, registered, active), steps).sends|
    ensures Exec(Start(clock, registered, active), steps).sends[i] != Exec(Start(clock, registered, active), steps).sends[j]
  {
    RunKeepsSingle(Start(clock, registered, active), steps);
  }

  /** What passing the guard of `connection-details` and `complete` means when completes do not
      overlap: the request was made by the `begin` whose state the message carries, it is bound to
      this tab and has not expired, its verifier has not been sent, and no handler is past reading
      it. */
  lemma GuardAdmitsUnsent(clock: int, registered: set<nat>, active: set<nat>, steps: seq<Step>, tab: nat, state: nat)
    requires ApartRun(Start(clock, registered, active), steps)
    requires Matches(Exec(Start(clock, registered, active), steps).storage, tab, state, Exec(Start(clock, registered, active), steps).server.clock)
    ensures var end := Exec(Start(clock, registered, active), steps);
      && state < end.begins && state !in end.sends && OnlyRead(end, state)
      && end.storage.pending.value == Request(state, Some(tab), end.storage.pending.value.expires)
  {
    RunKeepsSingle(Start(clock, registered, active), steps);
  }

  /** A `complete` that passes the guard while handler g has read the same request and not yet
      removed it. */
  predicate Overlaps(s: State, step: Step, g: nat) {
    && step.Complete? && HandlerOf(s, step.h).Idle? && Matches(s.storage, step.tab, step.state, s.server.clock)
    && g in s.handlers && s.handlers[g].Matched? && s.handlers[g].request.begin == s.storage.pending.value.begin
  }

  /** The condition is exact, step by step: a step keeps every request with one handler if and
      only if it overlaps none. */
  lemma ApartIff(s: State, step: Step)
    requires Single(s)
    ensures Apart(s, step) <==> Single(Next(s, step))
    ensures !Apart(s, step) <==> exists g :: Overlaps(s, step, g)
  {
    if Apart(s, step) {
      StepKeepsSingle(s, step);
    } else {
      hide Single, Unsent, SendsDiffer, StoredOk;
      var g :| g in s.handlers && s.handlers[g].Matched? && s.handlers[g].request.begin == s.storage.pending.value.begin;
      assert Overlaps(s, step, g);
      OverlapHoldsTwice(s, step, g);
    }
  }

  lemma OverlapHoldsTwice(s: State, step: Step, g: nat)
    requires Overlaps(s, step, g)
    ensures g != step.h && !OneHolder(Next(s, step))
    ensures Next(s, step).handlers == s.handlers[step.h := Matched(s.storage.pending.value, step.code)]
  {
    var n := Next(s, step);
    assert Holding(n.handlers[g]) == Holding(n.handlers[step.h]);
  }

  /** Every step that breaks the condition, in every state, makes the promise fail: both handlers
      go on, and the request is sent twice. */
  lemma OverlapSendsTwice(s: State, step: Step, g: nat)
    requires Overlaps(s, step, g)
    ensures var begin, n := s.storage.pending.value.begin, Next(s, step);
      Next(Next(Next(Next(n, CompleteRemove(step.h)), CompleteRemove(g)), Send(step.h)), Send(g)).sends == s.sends + [begin, begin]
  {
    assert s.storage.pending.Some?;
    hide Grants.Next, SessionFrom, Matches, Apart;
    OverlapHoldsTwice(s, step, g);
    var n, h, request := Next(s, step), step.h, s.storage.pending.value;
    assert n.sends == s.sends && n.handlers[g].Matched? && n.handlers[h] == Matched(request, step.code);
    hide Overlaps;
    var mine := s.handlers[g];
    var r := Next(Next(n, CompleteRemove(h)), CompleteRemove(g));
    assert r.handlers == n.handlers[h := Removed(request, step.code)][g := Removed(mine.request, mine.code)];
    assert s.sends + [request.begin] + [request.begin] == s.sends + [request.begin, request.begin];
  }

  /** Such a step is open to every state with a live request and two idle handlers. */
  lemma OverlapIsPossible(s: State, g: nat, h: nat, tab: nat, first: nat, second: nat)
    requires g != h && HandlerOf(s, g).Idle? && HandlerOf(s, h).Idle?
    requires s.storage.pending.Some? && s.storage.pending.value.tab == Some(tab) && s.storage.pending.value.expires > s.server.clock
    ensures var begin := s.storage.pending.value.begin;
      Overlaps(Next(s, Complete(g, tab, begin, first)), Complete(h, tab, begin, second), g)
  {
  }
}
