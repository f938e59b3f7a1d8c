/** The application bridge: a bounded store of single-use reviews, and the fill that consumes one
    and re-authorizes before every write. */
module Reviews {
  import opened Wrappers
  import opened Sequences

  const STORE_LIMIT: nat := 32
  const REVIEW_MILLIS: int := 5 * 60000

  /** Everything a review is bound to; `authorize` compares every one of these. */
  datatype Context = Context(
    tabId: nat, parentDocument: string, parentUrl: string, documentId: string, pageUrl: string, frameUrl: string,
    jobId: string, sessionFingerprint: string, userId: string, sessionHash: string, profileHash: string)

  datatype Field = Field(id: string, maxLength: nat, occupied: bool, unavailable: bool, widget: bool)

  datatype Review = Review(
    context: Context, fields: seq<Field>, countries: seq<string>, hasCountryState: bool, expiresAt: int)

  datatype Entry = Entry(id: nat, review: Review)

  // ----- the store as a value

  predicate Keeps(entry: Entry, tab: nat, now: int) {
    entry.review.expiresAt > now && entry.review.context.tabId != tab
  }

  /** Insertion order is kept. */
  function Pruned(entries: seq<Entry>, tab: nat, now: int): (r: seq<Entry>)
    ensures |r| <= |entries|
    ensures forall e :: e in r <==> e in entries && Keeps(e, tab, now)
  {
    if entries == [] then []
    else
      var init := Pruned(entries[..|entries| - 1], tab, now);
      var last := entries[|entries| - 1];
      assert entries == entries[..|entries| - 1] + [last];
      if Keeps(last, tab, now) then init + [last] else init
  }

  /** The newest ones that leave room for one more. */
  function Evicted(entries: seq<Entry>): seq<Entry> {
    if |entries| < STORE_LIMIT then entries else entries[|entries| - (STORE_LIMIT - 1)..]
  }

  function Inserted(entries: seq<Entry>, id: nat, review: Review, now: int): seq<Entry> {
    Evicted(Pruned(entries, review.context.tabId, now)) + [Entry(id, review)]
  }

  function Lookup(entries: seq<Entry>, id: nat): (r: Option<Review>)
    ensures r.Some? <==> exists k :: 0 <= k < |entries| && entries[k].id == id
    ensures r.Some? ==> Entry(id, r.value) in entries
  {
    if entries == [] then None
    else if entries[|entries| - 1].id == id then Some(entries[|entries| - 1].review)
    else Lookup(entries[..|entries| - 1], id)
  }

  function Without(entries: seq<Entry>, id: nat): (r: seq<Entry>)
    ensures |r| <= |entries| && forall e :: e in r <==> e in entries && e.id != id
  {
    if entries == [] then []
    else
      var init := Without(entries[..|entries| - 1], id);
      var last := entries[|entries| - 1];
      assert entries == entries[..|entries| - 1] + [last];
      if last.id == id then init else init + [last]
  }

  // ----- all runs of the store

  datatype Event =
    | Inspected(context: Context, fields: seq<Field>, countries: seq<string>, hasCountryState: bool, now: int)
    | FillAsked(id: nat, now: int)
    | SessionChanged

  datatype Start = Start(id: nat, review: Review)

  /** `issued` lists every review ever stored, by id; `starts` the fills that began. */
  datatype State = State(entries: seq<Entry>, issued: seq<Review>, starts: seq<Start>)

  const Fresh: State := State([], [], [])

  function ReviewOf(event: Event): Review
    requires event.Inspected?
  {
    Review(event.context, event.fields, event.countries, event.hasCountryState, event.now + REVIEW_MILLIS)
  }

  function Next(s: State, event: Event): State {
    match event
    case Inspected(_, _, _, _, now) =>
      s.(entries := Inserted(s.entries, |s.issued|, ReviewOf(event), now), issued := s.issued + [ReviewOf(event)])
    case FillAsked(id, now) =>
      var found := Lookup(s.entries, id);
      s.(entries := Without(s.entries, id),
         starts := if found.Some? && found.value.expiresAt > now then s.starts + [Start(id, found.value)] else s.starts)
    case SessionChanged => s.(entries := [])
  }

  function Exec(s: State, events: seq<Event>): State
    decreases events
  {
    if events == [] then s else Exec(Next(s, events[0]), events[1..])
  }

  ghost predicate Distinct(entries: seq<Entry>) {
    forall i, j :: 0 <= i < j < |entries| ==>
      entries[i].id != entries[j].id && entries[i].review.context.tabId != entries[j].review.context.tabId
  }

  predicate IssuedAs(s: State, id: nat, review: Review) {
    id < |s.issued| && s.issued[id] == review
  }

  predicate Started(starts: seq<Start>, id: nat) {
    exists k :: 0 <= k < |starts| && starts[k].id == id
  }

  ghost predicate Inv(s: State) {
    && |s.entries| <= STORE_LIMIT && Distinct(s.entries)
    && (forall e :: e in s.entries ==> IssuedAs(s, e.id, e.review) && !Started(s.starts, e.id))
    && (forall k :: 0 <= k < |s.starts| ==> IssuedAs(s, s.starts[k].id, s.starts[k].review))
    && (forall i, j :: 0 <= i < j < |s.starts| ==> s.starts[i].id != s.starts[j].id)
  }

  lemma {:induction false} PrunedDistinct(entries: seq<Entry>, tab: nat, now: int)
    requires Distinct(entries)
    ensures Distinct(Pruned(entries, tab, now))
  {
    if entries != [] {
      var init, last := entries[..|entries| - 1], entries[|entries| - 1];
      PrunedDistinct(init, tab, now);
      forall e | e in Pruned(init, tab, now)
        ensures e.id != last.id && e.review.context.tabId != last.review.context.tabId
      {
        var i :| 0 <= i < |init| && init[i] == e;
        assert entries[i] == e;
      }
    }
  }

  lemma {:induction false} WithoutDistinct(entries: seq<Entry>, id: nat)
    requires Distinct(entries)
    ensures Distinct(Without(entries, id))
  {
    if entries != [] {
      var init, last := entries[..|entries| - 1], entries[|entries| - 1];
      WithoutDistinct(init, id);
      forall e | e in Without(init, id)
        ensures e.id != last.id && e.review.context.tabId != last.review.context.tabId
      {
        var i :| 0 <= i < |init| && init[i] == e;
        assert entries[i] == e;
      }
    }
  }

  lemma InsertKeepsDistinct(entries: seq<Entry>, id: nat, review: Review, now: int)
    requires Distinct(entries) && forall e :: e in entries ==> e.id < id
    ensures Distinct(Inserted(entries, id, review, now)) && |Inserted(entries, id, review, now)| <= STORE_LIMIT
    ensures forall e :: e in Inserted(entries, id, review, now) ==> e == Entry(id, review) || e in entries
  {
    var tab := review.context.tabId;
    PrunedDistinct(entries, tab, now);
    var pruned := Pruned(entries, tab, now);
    var kept := Evicted(pruned);
    forall i | 0 <= i < |kept|
      ensures kept[i].id < id && kept[i].review.context.tabId != tab && kept[i] in entries
    {
      assert kept[i] in pruned;
    }
  }

  lemma StepKeepsInv(s: State, event: Event)
    requires Inv(s)
    ensures Inv(Next(s, event))
  {
    match event
    case Inspected(_, _, _, _, now) =>
      InsertKeepsDistinct(s.entries, |s.issued|, ReviewOf(event), now);
      assert forall k :: 0 <= k < |s.starts| ==> s.starts[k].id < |s.issued|;
    case FillAsked(id, now) =>
      WithoutDistinct(s.entries, id);
      FillKeepsInv(s, id, now);
    case SessionChanged =>
  }

  lemma FillKeepsInv(s: State, id: nat, now: int)
    requires Inv(s) && Distinct(Without(s.entries, id))
    ensures Inv(Next(s, FillAsked(id, now)))
  {
    hide Distinct;
    var n := Next(s, FillAsked(id, now));
    var found := Lookup(s.entries, id);
    if found.Some? {
      assert !Started(s.starts, id);
    }
    forall e | e in n.entries
      ensures IssuedAs(n, e.id, e.review) && !Started(n.starts, e.id)
    {
      assert !Started(s.starts, e.id);
    }
  }

  lemma {:induction false} RunKeepsInv(s: State, events: seq<Event>)
    requires Inv(s)
    ensures Inv(Exec(s, events))
    decreases events
  {
    hide Next, Inv;
    if events != [] {
      StepKeepsInv(s, events[0]);
      RunKeepsInv(Next(s, events[0]), events[1..]);
    }
  }

  // ----- the store as the worker keeps it

  /** The `reviews` map. The ghost fields record every review ever stored and every fill begun. */
  class ReviewStore {
    var entries: seq<Entry>
    ghost var issued: seq<Review>
    ghost var starts: seq<Start>

    ghost function Value(): State
      reads this
    {
      State(entries, issued, starts)
    }

    ghost predicate Valid()
      reads this
    {
      Inv(Value())
    }

    constructor ()
      ensures Valid() && Value() == Fresh
    {
      entries, issued, starts := [], [], [];
    }

    method Prune(tab: nat, now: int)
      modifies this`entries
      ensures entries == Pruned(old(entries), tab, now)
    {
      var kept: seq<Entry> := [];
      for i := 0 to |entries|
        invariant entries == old(entries) && kept == Pruned(entries[..i], tab, now)
      {
        assert entries[..i + 1][..i] == entries[..i];
        if entries[i].review.expiresAt > now && entries[i].review.context.tabId != tab {
          kept := kept + [entries[i]];
        }
      }
      assert entries[..|entries|] == entries;
      entries := kept;
    }

    /** Remembering a new review: prune, make room, append. */
    method Insert(id: nat, review: Review, now: int)
      modifies this`entries
      ensures entries == Inserted(old(entries), id, review, now)
    {
      Prune(review.context.tabId, now);
      ghost var pruned := entries;
      ghost var dropped := 0;
      while |entries| >= STORE_LIMIT
        invariant 0 <= dropped <= |pruned| && entries == pruned[dropped..]
        invariant dropped > 0 ==> |entries| >= STORE_LIMIT - 1
      {
        entries := entries[1..];
        dropped := dropped + 1;
      }
      entries := entries + [Entry(id, review)];
    }

    /** A fill consumes its review before anything else. */
    method Take(id: nat) returns (review: Option<Review>)
      modifies this`entries
      ensures review == Lookup(old(entries), id) && entries == Without(old(entries), id)
    {
      review := Lookup(entries, id);
      entries := Without(entries, id);
    }

    /** The end of `inspect`; the id is a fresh one. */
    method Inspect(context: Context, fields: seq<Field>, countries: seq<string>, hasCountryState: bool, now: int, id: nat)
      requires Valid() && id == |issued|
      modifies this
      ensures Valid() && Value() == Next(old(Value()), Inspected(context, fields, countries, hasCountryState, now))
    {
      hide Inv, Inserted, Without, Lookup;
      StepKeepsInv(Value(), Inspected(context, fields, countries, hasCountryState, now));
      var review := Review(context, fields, countries, hasCountryState, now + REVIEW_MILLIS);
      Insert(id, review, now);
      issued := issued + [review];
    }

    /** The start of `fill`: it begins only with a live review. */
    method BeginFill(id: nat, now: int) returns (review: Option<Review>)
      requires Valid()
      modifies this
      ensures Valid() && Value() == Next(old(Value()), FillAsked(id, now))
      ensures review.Some? <==> |starts| > |old(starts)|
      ensures review.Some? ==> starts == old(starts) + [Start(id, review.value)] && review.value.expiresAt > now
    {
      hide Inv, Inserted, Without, Lookup;
      StepKeepsInv(Value(), FillAsked(id, now));
      review := Take(id);
      if review.Some? && review.value.expiresAt <= now {
        review := None;
      }
      if review.Some? {
        starts := starts + [Start(id, review.value)];
      }
    }

    /** The listener on the stored session. */
    method SessionChanges()
      requires Valid()
      modifies this
      ensures Valid() && Value() == Next(old(Value()), SessionChanged)
    {
      hide Inv, Inserted, Without, Lookup;
      StepKeepsInv(Value(), SessionChanged);
      entries := [];
    }
  }

  /** After any run: at most 32 reviews, at most one for each tab, each review id starts at most
      one fill, and that fill gets the review as it was issued. */
  lemma StoreIsSafe(events: seq<Event>)
    ensures var end := Exec(Fresh, events);
      && |end.entries| <= STORE_LIMIT && Distinct(end.entries)
      && (forall i, j :: 0 <= i < j < |end.starts| ==> end.starts[i].id != end.starts[j].id)
      && (forall k :: 0 <= k < |end.starts| ==> IssuedAs(end, end.starts[k].id, end.starts[k].review))
  {
    RunKeepsInv(Fresh, events);
  }

  /** The places after k that hold live reviews of other tabs. */
  ghost function NewerLive(entries: seq<Entry>, k: nat, tab: nat, now: int): set<int> {
    set j | k < j < |entries| && entries[j].review.context.tabId != tab && now < entries[j].review.expiresAt
  }

  predicate LiveFor(entry: Entry, tab: nat, now: int) {
    entry.review.context.tabId != tab && now < entry.review.expiresAt
  }

  lemma NewerGrows(entries: seq<Entry>, last: Entry, k: nat, tab: nat, now: int)
    requires k < |entries|
    ensures |NewerLive(entries + [last], k, tab, now)| == |NewerLive(entries, k, tab, now)| + if LiveFor(last, tab, now) then 1 else 0
  {
    var n, longer := |entries|, entries + [last];
    forall j
      ensures j in NewerLive(longer, k, tab, now) <==> j in NewerLive(entries, k, tab, now) || (LiveFor(last, tab, now) && j == n)
    {
    }
    assert n !in NewerLive(entries, k, tab, now);
    hide NewerLive;
    assert NewerLive(longer, k, tab, now) == NewerLive(entries, k, tab, now) + if LiveFor(last, tab, now) then {n} else {};
  }

  lemma PrunedGrows(entries: seq<Entry>, last: Entry, tab: nat, now: int)
    ensures Pruned(entries + [last], tab, now) == Pruned(entries, tab, now) + if LiveFor(last, tab, now) then [last] else []
  {
    assert (entries + [last])[..|entries|] == entries;
  }

  /** Where a kept entry stands: as many from the end as newer ones are kept. */
  lemma {:induction false} PrunedPlace(entries: seq<Entry>, k: nat, tab: nat, now: int)
    requires k < |entries| && LiveFor(entries[k], tab, now)
    ensures var pruned, newer := Pruned(entries, tab, now), |NewerLive(entries, k, tab, now)|;
      newer < |pruned| && pruned[|pruned| - 1 - newer] == entries[k]
  {
    var n := |entries| - 1;
    var init, last := entries[..n], entries[n];
    assert entries == init + [last];
    PrunedGrows(init, last, tab, now);
    if k == n {
      assert NewerLive(entries, k, tab, now) == {};
    } else {
      hide Pruned, NewerLive, LiveFor;
      PrunedPlace(init, k, tab, now);
      NewerGrows(init, last, k, tab, now);
    }
  }

  /** A review survives an insertion exactly when it is live, of another tab, and fewer than 31 newer
      ones are. */
  lemma SurvivesIff(entries: seq<Entry>, id: nat, review: Review, now: int, k: nat)
    requires Distinct(entries) && (forall e :: e in entries ==> e.id < id) && k < |entries|
    ensures entries[k] in Inserted(entries, id, review, now) <==>
      && now < entries[k].review.expiresAt && entries[k].review.context.tabId != review.context.tabId
      && |NewerLive(entries, k, review.context.tabId, now)| < 31
  {
    var tab := review.context.tabId;
    var pruned, e := Pruned(entries, tab, now), entries[k];
    PrunedDistinct(entries, tab, now);
    var kept := Evicted(pruned);
    assert e in Inserted(entries, id, review, now) <==> e in kept;
    hide Pruned, Inserted;
    if e in pruned {
      PrunedPlace(entries, k, tab, now);
      var place := |pruned| - 1 - |NewerLive(entries, k, tab, now)|;
      var dropped := |pruned| - |kept|;
      assert kept == pruned[dropped..];
      if place >= dropped {
        assert kept[place - dropped] == e;
      }
    }
  }

  /** The store keeps the order of insertion, with the new review last. */
  lemma InsertedInOrder(entries: seq<Entry>, id: nat, review: Review, now: int)
    ensures var r := Inserted(entries, id, review, now);
      r != [] && r[|r| - 1] == Entry(id, review) && PartOf(r[..|r| - 1], entries)
  {
    PrunedInOrder(entries, review.context.tabId, now);
    var pruned := Pruned(entries, review.context.tabId, now);
    if |pruned| >= STORE_LIMIT {
      PartOfSuffix(pruned, entries, |pruned| - (STORE_LIMIT - 1));
    }
    var kept := Evicted(pruned);
    assert (kept + [Entry(id, review)])[..|kept|] == kept;
  }

  lemma {:induction false} PrunedInOrder(entries: seq<Entry>, tab: nat, now: int)
    ensures PartOf(Pruned(entries, tab, now), entries)
  {
    if entries != [] {
      var init, last := entries[..|entries| - 1], entries[|entries| - 1];
      PrunedInOrder(init, tab, now);
      PartOfGrows(Pruned(init, tab, now), init, last);
      assert entries == init + [last];
    }
  }

  /** What inspecting stores: the review as it was read, for five minutes, under an id of its own. */
  lemma InspectStores(s: State, context: Context, fields: seq<Field>, countries: seq<string>, hasCountryState: bool, now: int)
    ensures var n := Next(s, Inspected(context, fields, countries, hasCountryState, now));
      var review := Review(context, fields, countries, hasCountryState, now + 300000);
      && n.entries != [] && n.entries[|n.entries| - 1] == Entry(|s.issued|, review)
      && n.issued == s.issued + [review] && n.starts == s.starts
  {
  }

  /** Exactly when a fill begins: its review is stored and has not expired. In any case the review is
      gone afterwards and the others stay in their order. */
  lemma FillIff(s: State, id: nat, now: int)
    requires Inv(s)
    ensures var n := Next(s, FillAsked(id, now));
      && (forall e :: e in s.entries && e.id == id ==>
            n.starts == if now < e.review.expiresAt then s.starts + [Start(id, e.review)] else s.starts)
      && ((forall e :: e in s.entries ==> e.id != id) ==> n.starts == s.starts)
      && (forall e :: e in n.entries <==> e in s.entries && e.id != id) && PartOf(n.entries, s.entries) && n.issued == s.issued
  {
    hide Without;
    WithoutInOrder(s.entries, id);
    var found := Lookup(s.entries, id);
    hide Lookup;
    forall e | e in s.entries && e.id == id
      ensures found == Some(e.review)
    {
      var i :| 0 <= i < |s.entries| && s.entries[i] == e;
      var j :| 0 <= j < |s.entries| && s.entries[j] == Entry(id, found.value);
      assert i == j;
    }
  }

  lemma {:induction false} WithoutInOrder(entries: seq<Entry>, id: nat)
    ensures PartOf(Without(entries, id), entries)
  {
    if entries != [] {
      var init, last := entries[..|entries| - 1], entries[|entries| - 1];
      WithoutInOrder(init, id);
      PartOfGrows(Without(init, id), init, last);
      assert entries == init + [last];
    }
  }
}
