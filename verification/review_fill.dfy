/** The fill that consumes a review: the approved answers are checked and split, every dispatch to
    the page follows a fresh authorization, and replies are turned into a report. */
module ReviewFills {
  import opened Wrappers
  import opened Reviews

  /** `sound` stands for the exact keys, the confirmation and a non-blank text; `nationality` and
      `campus` are the parsed choice of a country answer. */
  datatype Answer = Answer(id: string, length: nat, sound: bool, choice: Option<(string, string)>)

  const COUNTRIES: string := "applicant_countries"
  const MAX_ANSWERS: nat := 6
  const MAX_COUNTRY_TEXT: nat := 1000

  // ----- which answers a review allows, and who writes them

  datatype Route = Ordinary | Widget

  function FindField(fields: seq<Field>, id: string): (f: Option<Field>)
    ensures f.Some? ==> f.value in fields && f.value.id == id
    ensures f.None? ==> forall i :: 0 <= i < |fields| ==> fields[i].id != id
  {
    if fields == [] then None else if fields[0].id == id then Some(fields[0]) else FindField(fields[1..], id)
  }

  function RouteOf(review: Review, answer: Answer): Option<Route> {
    if answer.id == COUNTRIES then
      if review.hasCountryState && answer.length <= MAX_COUNTRY_TEXT && answer.choice.Some?
         && answer.choice.value.0 in review.countries && answer.choice.value.1 in review.countries
      then Some(Widget) else None
    else
      var f := FindField(review.fields, answer.id);
      if f.None? || f.value.unavailable || f.value.occupied || answer.length > f.value.maxLength then None
      else Some(if f.value.widget then Widget else Ordinary)
  }

  // ----- the same, read off the review

  predicate FirstField(fields: seq<Field>, k: nat, id: string)
    requires k < |fields|
  {
    fields[k].id == id && forall j :: 0 <= j < k ==> fields[j].id != id
  }

  /** The reviewed field can still take the answer, and belongs to this writer. */
  predicate Takes(fields: seq<Field>, k: nat, answer: Answer, route: Route)
    requires k < |fields|
  {
    FirstField(fields, k, answer.id) && !fields[k].unavailable && !fields[k].occupied
    && answer.length <= fields[k].maxLength && (fields[k].widget <==> route == Widget)
  }

  /** An answer that this writer may be given: the country answer goes to the widgets and needs a
      country state and two offered countries; any other one needs its reviewed field, free, long
      enough and of that kind. */
  ghost predicate Fits(review: Review, answer: Answer, route: Route) {
    if answer.id == COUNTRIES then
      route == Widget && review.hasCountryState && answer.length <= 1000
      && exists n, c :: answer.choice == Some((n, c)) && n in review.countries && c in review.countries
    else exists k :: 0 <= k < |review.fields| && Takes(review.fields, k, answer, route)
  }

  lemma {:induction false} FindFieldIff(fields: seq<Field>, id: string, k: nat)
    requires k < |fields| && FirstField(fields, k, id)
    ensures FindField(fields, id) == Some(fields[k])
  {
    if k > 0 {
      assert fields[0].id != id;
      FindFieldIff(fields[1..], id, k - 1);
    }
  }

  lemma {:induction false} FoundFirst(fields: seq<Field>, id: string) returns (k: nat)
    requires FindField(fields, id).Some?
    ensures k < |fields| && FirstField(fields, k, id) && FindField(fields, id) == Some(fields[k])
  {
    if fields[0].id == id {
      k := 0;
    } else {
      var j := FoundFirst(fields[1..], id);
      k := j + 1;
    }
  }

  lemma RouteIff(review: Review, answer: Answer, route: Route)
    ensures RouteOf(review, answer) == Some(route) <==> Fits(review, answer, route)
  {
    if answer.id != COUNTRIES {
      if FindField(review.fields, answer.id).Some? {
        var k := FoundFirst(review.fields, answer.id);
        assert RouteOf(review, answer) == Some(route) ==> Takes(review.fields, k, answer, route);
      }
      if k :| 0 <= k < |review.fields| && Takes(review.fields, k, answer, route) {
        FindFieldIff(review.fields, answer.id, k);
      }
    } else if answer.choice.Some? {
      assert answer.choice == Some((answer.choice.value.0, answer.choice.value.1));
    }
  }

  ghost predicate FitsSomewhere(review: Review, answer: Answer) {
    Fits(review, answer, Ordinary) || Fits(review, answer, Widget)
  }

  /** One to six individually confirmed answers with distinct ids, each of which some writer takes. */
  ghost predicate Allowed(review: Review, approved: seq<Answer>) {
    && 0 < |approved| <= 6
    && (forall i :: 0 <= i < |approved| ==> approved[i].sound && FitsSomewhere(review, approved[i]))
    && (forall i, j :: 0 <= i < j < |approved| ==> approved[i].id != approved[j].id)
  }

  lemma RoutedSomewhere(review: Review, answer: Answer)
    ensures FitsSomewhere(review, answer) <==> RouteOf(review, answer).Some?
  {
    RouteIff(review, answer, Ordinary);
    RouteIff(review, answer, Widget);
    hide RouteOf, Fits;
    var r := RouteOf(review, answer);
    if r.Some? {
      match r.value
      case Ordinary => assert r == Some(Ordinary);
      case Widget => assert r == Some(Widget);
    }
  }

  function Routed(review: Review, approved: seq<Answer>, route: Route): (r: seq<string>)
    ensures forall id :: id in r ==> exists i :: 0 <= i < |approved| && approved[i].id == id
  {
    if approved == [] then []
    else
      var init := Routed(review, approved[..|approved| - 1], route);
      var last := approved[|approved| - 1];
      if RouteOf(review, last) == Some(route) then init + [last.id] else init
  }

  /** One answer is acceptable after the ids seen so far. */
  predicate Acceptable(review: Review, approved: seq<Answer>, i: nat)
    requires i < |approved|
  {
    approved[i].sound && RouteOf(review, approved[i]).Some? && forall j :: 0 <= j < i ==> approved[j].id != approved[i].id
  }

  lemma AllowedIff(review: Review, approved: seq<Answer>)
    ensures Allowed(review, approved) <==>
      0 < |approved| <= MAX_ANSWERS && forall i :: 0 <= i < |approved| ==> Acceptable(review, approved, i)
  {
    forall i | 0 <= i < |approved|
      ensures FitsSomewhere(review, approved[i]) <==> RouteOf(review, approved[i]).Some?
    {
      RoutedSomewhere(review, approved[i]);
    }
    hide RouteOf, FitsSomewhere;
    if Allowed(review, approved) {
      forall i | 0 <= i < |approved|
        ensures Acceptable(review, approved, i)
      {
      }
    }
    if forall i :: 0 <= i < |approved| ==> Acceptable(review, approved, i) {
      forall i, j | 0 <= i < j < |approved|
        ensures approved[i].id != approved[j].id
      {
        assert Acceptable(review, approved, j);
      }
      forall i | 0 <= i < |approved|
        ensures approved[i].sound && FitsSomewhere(review, approved[i])
      {
        assert Acceptable(review, approved, i);
      }
    }
  }

  /** The approval loop: it accepts exactly the allowed lists and splits them by who writes them. */
  method Split(review: Review, approved: seq<Answer>) returns (r: Option<(seq<string>, seq<string>)>)
    ensures r.Some? <==> Allowed(review, approved)
    ensures r.Some? ==> r.value == (Routed(review, approved, Ordinary), Routed(review, approved, Widget))
  {
    AllowedIff(review, approved);
    hide Allowed, RouteOf;
    if approved == [] || |approved| > MAX_ANSWERS {
      return None;
    }
    var seen: set<string> := {};
    var ordinary, widgets := [], [];
    for i := 0 to |approved|
      invariant forall j :: 0 <= j < i ==> Acceptable(review, approved, j)
      invariant forall id :: id in seen <==> exists j :: 0 <= j < i && approved[j].id == id
      invariant ordinary == Routed(review, approved[..i], Ordinary) && widgets == Routed(review, approved[..i], Widget)
    {
      var answer := approved[i];
      assert approved[..i + 1][..i] == approved[..i];
      var route := RouteOf(review, answer);
      if !answer.sound || answer.id in seen || route.None? {
        assert !Acceptable(review, approved, i);
        return None;
      }
      seen := seen + {answer.id};
      if route.value.Widget? {
        widgets := widgets + [answer.id];
      } else {
        ordinary := ordinary + [answer.id];
      }
    }
    assert approved[..|approved|] == approved;
    return Some((ordinary, widgets));
  }

  function IdsOf(approved: seq<Answer>): (r: seq<string>)
    ensures |r| == |approved| && forall i :: 0 <= i < |r| ==> r[i] == approved[i].id
  {
    seq(|approved|, i requires 0 <= i < |approved| => approved[i].id)
  }

  ghost predicate FitsId(review: Review, approved: seq<Answer>, route: Route, id: string) {
    exists i :: 0 <= i < |approved| && approved[i].id == id && Fits(review, approved[i], route)
  }

  /** Each writer gets exactly the answers that fit it. */
  lemma {:induction false} RoutedIff(review: Review, approved: seq<Answer>, route: Route, id: string)
    ensures id in Routed(review, approved, route) <==> FitsId(review, approved, route, id)
  {
    if approved != [] {
      var init, last := approved[..|approved| - 1], approved[|approved| - 1];
      RoutedIff(review, init, route, id);
      RouteIff(review, last, route);
      hide RouteOf, Fits;
      assert forall i :: 0 <= i < |init| ==> init[i] == approved[i];
      if FitsId(review, init, route, id) {
        var i :| 0 <= i < |init| && init[i].id == id && Fits(review, init[i], route);
        assert approved[i].id == id && Fits(review, approved[i], route);
      }
    }
  }

  /** The split loses and invents nothing. */
  lemma {:induction false} RoutesPartition(review: Review, approved: seq<Answer>)
    requires forall i :: 0 <= i < |approved| ==> RouteOf(review, approved[i]).Some?
    ensures multiset(Routed(review, approved, Ordinary)) + multiset(Routed(review, approved, Widget)) == multiset(IdsOf(approved))
  {
    hide RouteOf;
    if approved != [] {
      var init, last := approved[..|approved| - 1], approved[|approved| - 1];
      RoutesPartition(review, init);
      assert IdsOf(approved) == IdsOf(init) + [last.id];
      match RouteOf(review, last).value
      case Ordinary =>
        assert Routed(review, approved, Ordinary) == Routed(review, init, Ordinary) + [last.id];
        assert Routed(review, approved, Widget) == Routed(review, init, Widget);
      case Widget =>
        assert Routed(review, approved, Widget) == Routed(review, init, Widget) + [last.id];
        assert Routed(review, approved, Ordinary) == Routed(review, init, Ordinary);
    }
  }

  // ----- the page's replies and the report

  datatype Reply = Lost | Malformed | Listed(filled: seq<string>, skipped: seq<string>)

  datatype Report = Report(filled: seq<string>, skipped: seq<string>)

  /** Only an id the page lists as filled and not as skipped counts as filled. */
  function Sorted(report: Report, ids: seq<string>, reply: Reply): Report
    requires reply.Listed?
  {
    if ids == [] then report
    else
      var init := Sorted(report, ids[..|ids| - 1], reply);
      var last := ids[|ids| - 1];
      if last in reply.filled && last !in reply.skipped then init.(filled := init.filled + [last])
      else init.(skipped := init.skipped + [last])
  }

  lemma {:induction false} SortedMeaning(report: Report, ids: seq<string>, reply: Reply)
    requires reply.Listed?
    ensures var r := Sorted(report, ids, reply);
      && multiset(r.filled) + multiset(r.skipped) == multiset(report.filled) + multiset(report.skipped) + multiset(ids)
      && forall id :: id in r.filled <==> id in report.filled || (id in ids && id in reply.filled && id !in reply.skipped)
  {
    if ids != [] {
      var init, last := ids[..|ids| - 1], ids[|ids| - 1];
      SortedMeaning(report, init, reply);
      assert ids == init + [last];
      var before := Sorted(report, init, reply);
      if last in reply.filled && last !in reply.skipped {
        assert Sorted(report, ids, reply) == before.(filled := before.filled + [last]);
        assert multiset(before.filled + [last]) == multiset(before.filled) + multiset{last};
        assert multiset(before.filled) + multiset{last} + multiset(before.skipped)
          == multiset(before.filled) + multiset(before.skipped) + multiset{last};
      } else {
        assert Sorted(report, ids, reply) == before.(skipped := before.skipped + [last]);
        assert multiset(before.skipped + [last]) == multiset(before.skipped) + multiset{last};
        assert multiset(before.filled) + (multiset(before.skipped) + multiset{last})
          == multiset(before.filled) + multiset(before.skipped) + multiset{last};
      }
    }
  }

  // ----- one fill

  /** What the worker does that the outside can see. */
  datatype Action = Authorized(context: Context) | Dispatched(route: Route, documentId: string, ids: seq<string>, now: int)

  /** What one authorization finds (nothing if it fails), and the clock after it. */
  datatype Check = Check(found: Option<Context>, now: int)

  datatype World = World(ordinary: Check, ordinaryReply: Reply, widgets: Check, widgetReply: Reply, last: Check)

  datatype Failure = Rejected | Uncertain

  predicate Dispatches(trace: seq<Action>) {
    exists k :: 0 <= k < |trace| && trace[k].Dispatched?
  }

  /** Every dispatch goes to the reviewed document, while the review is live, right after an
      authorization that found the reviewed context in every field. */
  predicate Guarded(review: Review, trace: seq<Action>) {
    forall k :: 0 <= k < |trace| && trace[k].Dispatched? ==>
      k > 0 && trace[k - 1] == Authorized(review.context)
      && trace[k].documentId == review.context.documentId && trace[k].now < review.expiresAt
  }

  /** `authorize` with an expected context compares field by field. */
  method Authorize(check: Check, expected: Context) returns (ok: bool)
    ensures ok <==> check.found == Some(expected)
  {
    if check.found.None? {
      return false;
    }
    var c := check.found.value;
    ok := c.tabId == expected.tabId && c.parentDocument == expected.parentDocument && c.parentUrl == expected.parentUrl
      && c.documentId == expected.documentId && c.pageUrl == expected.pageUrl && c.frameUrl == expected.frameUrl
      && c.jobId == expected.jobId && c.sessionFingerprint == expected.sessionFingerprint && c.userId == expected.userId
      && c.sessionHash == expected.sessionHash && c.profileHash == expected.profileHash;
  }

  /** A dispatch that is authorized, in time and answered. */
  predicate Lands(review: Review, check: Check, reply: Reply) {
    check.found == Some(review.context) && check.now < review.expiresAt && reply.Listed?
  }

  /** One `apply`: authorize, check the expiry, dispatch, read the reply. */
  method Apply(review: Review, route: Route, ids: seq<string>, check: Check, reply: Reply, before: Report, done: seq<Action>)
    returns (report: Option<Report>, trace: seq<Action>)
    requires Guarded(review, done)
    ensures done <= trace && Guarded(review, trace)
    ensures ids == [] ==> report == Some(before) && trace == done
    ensures report.Some? && ids != [] ==> reply.Listed? && report.value == Sorted(before, ids, reply)
    ensures report.Some? && ids != [] ==>
      trace == done + [Authorized(review.context), Dispatched(route, review.context.documentId, ids, check.now)]
    ensures |trace| <= |done| + 2
    ensures forall k :: |done| <= k < |trace| && trace[k].Dispatched? ==> trace[k].route == route && trace[k].ids == ids
    ensures report.Some? <==> ids == [] || Lands(review, check, reply)
    ensures Dispatches(trace) <==> Dispatches(done) || (ids != [] && check.found == Some(review.context) && check.now < review.expiresAt)
  {
    report, trace := None, done;
    if ids == [] {
      return Some(before), done;
    }
    var ok := Authorize(check, review.context);
    if !ok {
      return;
    }
    trace := trace + [Authorized(review.context)];
    if review.expiresAt <= check.now {
      return;
    }
    trace := trace + [Dispatched(route, review.context.documentId, ids, check.now)];
    assert trace[|trace| - 1].Dispatched?;
    if reply.Listed? {
      report := Some(Sorted(before, ids, reply));
    }
  }

  /** The two dispatches, ordinary fields first. */
  method ApplyBoth(review: Review, ordinary: seq<string>, widgets: seq<string>, world: World)
    returns (first: Report, second: Option<Report>, trace: seq<Action>)
    ensures Guarded(review, trace)
    ensures forall k :: 0 <= k < |trace| && trace[k].Dispatched? ==> trace[k].ids == if trace[k].route == Ordinary then ordinary else widgets
    ensures second.Some? <==>
      && (ordinary == [] || Lands(review, world.ordinary, world.ordinaryReply))
      && (widgets == [] || Lands(review, world.widgets, world.widgetReply))
    ensures second.Some? ==>
      && Accumulated(ordinary, Report([], []), world.ordinaryReply, first)
      && Accumulated(widgets, first, world.widgetReply, second.value)
  {
    hide Guarded, Dispatches, Sorted;
    NothingDone(review);
    first, second := Report([], []), None;
    var done;
    done, trace := Apply(review, Ordinary, ordinary, world.ordinary, world.ordinaryReply, first, []);
    if done.Some? {
      first := done.value;
      second, trace := Apply(review, Widget, widgets, world.widgets, world.widgetReply, first, trace);
    }
  }

  lemma NothingDone(review: Review)
    ensures Guarded(review, [])
  {
  }

  lemma AuthorizingIsSafe(review: Review, trace: seq<Action>)
    requires Guarded(review, trace)
    ensures Guarded(review, trace + [Authorized(review.context)])
  {
  }

  /** The whole fill of a consumed review. */
  method Fill(review: Option<Review>, approved: seq<Answer>, now: int, world: World)
    returns (result: Result<Report, Failure>, trace: seq<Action>)
    ensures trace == [] || (review.Some? && review.value.expiresAt > now && Allowed(review.value, approved))
    ensures review.Some? ==> Guarded(review.value, trace)
    ensures result == Err(Rejected) ==> !Dispatches(trace)
    ensures result == Err(Uncertain) ==> Dispatches(trace)
    ensures result.Ok? ==> review.Some? && trace != [] && trace[|trace| - 1] == Authorized(review.value.context)
    ensures result.Ok? ==> multiset(result.value.filled) + multiset(result.value.skipped) == multiset(IdsOf(approved))
    ensures result.Ok? ==> Confirmed(review.value, approved, world, result.value)
    ensures review.Some? ==> DispatchesFit(review.value, approved, trace)
    ensures result.Ok? <==>
      && review.Some? && review.value.expiresAt > now && Allowed(review.value, approved)
      && Answered(review.value, approved, Ordinary, world.ordinary, world.ordinaryReply)
      && Answered(review.value, approved, Widget, world.widgets, world.widgetReply)
      && world.last.found == Some(review.value.context)
  {
    trace := [];
    if review.None? || review.value.expiresAt <= now {
      return Err(Rejected), trace;
    }
    var r := review.value;
    NothingDone(r);
    hide Allowed, Routed, Sorted, IdsOf, Confirmed, Guarded, Answered, Lands, FitsId, Accumulated;
    var split := Split(r, approved);
    if split.None? {
      return Err(Rejected), trace;
    }
    hide Dispatches;
    AnsweredIff(r, approved, Ordinary, world.ordinary, world.ordinaryReply);
    AnsweredIff(r, approved, Widget, world.widgets, world.widgetReply);
    forall route, id
      ensures id in Routed(r, approved, route) <==> FitsId(r, approved, route, id)
    {
      RoutedIff(r, approved, route, id);
    }
    var first, second;
    first, second, trace := ApplyBoth(r, split.value.0, split.value.1, world);
    var ok := Authorize(world.last, r.context);
    if second.None? || !ok {
      result := Err(FailureOf(trace));
      return;
    }
    AuthorizingIsSafe(r, trace);
    trace := trace + [Authorized(r.context)];
    FilledIsConfirmed(r, approved, world, first, second.value);
    return Ok(second.value), trace;
  }

  function FailureOf(trace: seq<Action>): Failure {
    if Dispatches(trace) then Uncertain else Rejected
  }

  /** Every id of a dispatch is an approved answer that fits that writer. */
  ghost predicate DispatchesFit(review: Review, approved: seq<Answer>, trace: seq<Action>) {
    forall k, id :: 0 <= k < |trace| && trace[k].Dispatched? && id in trace[k].ids ==> FitsId(review, approved, trace[k].route, id)
  }

  /** If some approved answer is for this writer, its dispatch lands. */
  ghost predicate Answered(review: Review, approved: seq<Answer>, route: Route, check: Check, reply: Reply) {
    (exists id :: FitsId(review, approved, route, id)) ==> Lands(review, check, reply)
  }

  lemma AnsweredIff(review: Review, approved: seq<Answer>, route: Route, check: Check, reply: Reply)
    ensures Answered(review, approved, route, check, reply) <==> Routed(review, approved, route) == [] || Lands(review, check, reply)
  {
    var ids := Routed(review, approved, route);
    forall id
      ensures id in ids <==> FitsId(review, approved, route, id)
    {
      RoutedIff(review, approved, route, id);
    }
    hide FitsId, Lands;
    if ids != [] {
      assert ids[0] in ids;
    }
  }

  /** An id is reported as filled exactly if the page that was asked to write it said so. */
  ghost predicate Confirmed(review: Review, approved: seq<Answer>, world: World, report: Report) {
    forall id :: id in report.filled <==>
      (FitsId(review, approved, Ordinary, id) && SaysFilled(world.ordinaryReply, id))
      || (FitsId(review, approved, Widget, id) && SaysFilled(world.widgetReply, id))
  }

  predicate SaysFilled(reply: Reply, id: string) {
    reply.Listed? && id in reply.filled && id !in reply.skipped
  }

  lemma FilledIsConfirmed(review: Review, approved: seq<Answer>, world: World, first: Report, second: Report)
    requires Allowed(review, approved)
    requires Accumulated(Routed(review, approved, Ordinary), Report([], []), world.ordinaryReply, first)
    requires Accumulated(Routed(review, approved, Widget), first, world.widgetReply, second)
    ensures multiset(second.filled) + multiset(second.skipped) == multiset(IdsOf(approved))
    ensures Confirmed(review, approved, world, second)
  {
    forall k | 0 <= k < |approved|
      ensures RouteOf(review, approved[k]).Some?
    {
      RoutedSomewhere(review, approved[k]);
    }
    hide RouteOf, Routed, FitsId, FitsSomewhere, SaysFilled, Accumulated;
    AccumulatedMeaning(Routed(review, approved, Ordinary), Report([], []), world.ordinaryReply, first);
    AccumulatedMeaning(Routed(review, approved, Widget), first, world.widgetReply, second);
    RoutesPartition(review, approved);
    forall id
      ensures id in second.filled <==>
        (FitsId(review, approved, Ordinary, id) && SaysFilled(world.ordinaryReply, id))
        || (FitsId(review, approved, Widget, id) && SaysFilled(world.widgetReply, id))
    {
      RoutedIff(review, approved, Ordinary, id);
      RoutedIff(review, approved, Widget, id);
    }
  }

  /** A report after the reply for these ids, if there are any. */
  predicate Accumulated(ids: seq<string>, before: Report, reply: Reply, after: Report) {
    if ids == [] then after == before else reply.Listed? && after == Sorted(before, ids, reply)
  }

  lemma AccumulatedMeaning(ids: seq<string>, before: Report, reply: Reply, after: Report)
    requires Accumulated(ids, before, reply, after)
    ensures multiset(after.filled) + multiset(after.skipped) == multiset(before.filled) + multiset(before.skipped) + multiset(ids)
    ensures forall id :: id in after.filled <==> id in before.filled || (id in ids && SaysFilled(reply, id))
  {
    if ids != [] {
      SortedMeaning(before, ids, reply);
    }
  }
}
