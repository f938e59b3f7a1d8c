/** The job-level part of the pipeline: related activities, career strengths, ranks and the
    read-safe correction of warnings, around the row stages. */
module Assessments {
  import opened Text
  import opened Wrappers
  import opened Citations
  import opened Evidence

  datatype Basis = RequirementBasis | ConditionBasis | ActivityBasis

  datatype Strength = Strength(basis: Basis, requirement: nat, condition: Option<nat>, text: string)

  /** A related hands-on activity; the only kind the resolver issues. */
  datatype Related = Related(requirement: nat, quote: string)

  datatype RefRelated = RefRelated(requirement: nat, range: Range)

  /** What a strength may rest on: category, field, quotation and the validated statement. */
  datatype Backing = Backing(category: Category, field: Field, quote: string, statement: string)

  datatype Item = Item(jobId: string, rank: nat, rows: seq<Row>, warnings: seq<string>, related: seq<Related>, strengths: seq<Strength>)

  /** Further text heuristics, left uninterpreted. */
  datatype CareerRules = CareerRules(
    fold: char -> string,
    performed: string -> bool,
    learning: string -> bool,
    safe: (string, Backing) -> bool,
    fallback: Backing -> string,
    preferred: string -> bool,
    availabilityConflict: string -> bool)

  // ----- related activities

  datatype RelatedStep = Refused | Skipped | Kept(entry: Related)

  /** One model-proposed activity: refused, skipped, or kept with its exact quotation. */
  function ResolveActivity(rules: CareerRules, catalog: map<SourceId, SourceSpan>, rows: seq<Row>, ref: RefRelated): RelatedStep {
    if ref.requirement >= |rows| then Refused
    else match ProfileQuote(Some(Experience), Some(ref.range), catalog)
         case Err(_) => Refused
         case Ok(proof) =>
           if TextOf(proof) == "" then Refused
           else if !rules.performed(TextOf(proof)) then Skipped
           else if rows[ref.requirement].category !in {SkillRow, ExperienceRow, ResponsibilityRow} then Refused
           else if rules.learning(rows[ref.requirement].requirement) then Skipped
           else Kept(Related(ref.requirement, TextOf(proof)))
  }

  function ResolveRelated(rules: CareerRules, catalog: map<SourceId, SourceSpan>, rows: seq<Row>, refs: seq<RefRelated>)
    : (r: Result<seq<Related>, EvidenceError>)
  {
    if refs == [] then Ok([])
    else
      var init := ResolveRelated(rules, catalog, rows, refs[..|refs| - 1]);
      if init.Err? then init
      else match ResolveActivity(rules, catalog, rows, refs[|refs| - 1])
           case Refused => Err(InvalidEvidence)
           case Skipped => init
           case Kept(entry) => if entry in init.value then Err(InvalidEvidence) else Ok(init.value + [entry])
  }

  /** The later re-check of one related activity. */
  predicate RelatedAccepted(rules: CareerRules, profile: Profile, rows: seq<Row>, entry: Related) {
    && entry.requirement < |rows|
    && ContainedInSome(entry.quote, Originals(profile, Experience))
    && rules.performed(entry.quote)
  }

  /** Nothing the resolver kept can fail the later checks on related activities, and every kept
      activity is an exact slice of the saved experience, listed once. */
  lemma {:induction false} RelatedNeverRejected(rules: CareerRules, payload: Payload, catalog: map<SourceId, SourceSpan>, rows: seq<Row>, refs: seq<RefRelated>)
    requires IsCatalog(payload, catalog) && DistinctJobs(payload.jobs)
    requires ResolveRelated(rules, catalog, rows, refs).Ok?
    ensures var kept := ResolveRelated(rules, catalog, rows, refs).value;
      && (forall i :: 0 <= i < |kept| ==> ActivityFacts(rules, payload, rows, kept[i]))
      && (forall i, j :: 0 <= i < j < |kept| ==> kept[i] != kept[j])
  {
    hide IsCatalog, ActivityFacts, ResolveActivity;
    if refs != [] {
      var last := refs[|refs| - 1];
      RelatedNeverRejected(rules, payload, catalog, rows, refs[..|refs| - 1]);
      var step := ResolveActivity(rules, catalog, rows, last);
      if step.Kept? {
        ActivityIsExact(rules, payload, catalog, rows, last);
      }
    }
  }

  ghost predicate ActivityFacts(rules: CareerRules, payload: Payload, rows: seq<Row>, entry: Related) {
    && RelatedAccepted(rules, payload.profile, rows, entry) && Strip(entry.quote) == entry.quote
    && ExactQuote(payload, ProfileScope, "profile", Experience, entry.quote)
  }

  lemma ActivityIsExact(rules: CareerRules, payload: Payload, catalog: map<SourceId, SourceSpan>, rows: seq<Row>, ref: RefRelated)
    requires IsCatalog(payload, catalog) && DistinctJobs(payload.jobs)
    requires ResolveActivity(rules, catalog, rows, ref).Kept?
    ensures ActivityFacts(rules, payload, rows, ResolveActivity(rules, catalog, rows, ref).entry)
  {
    hide IsCatalog, ExactQuote, Contains, Strip, Resolve;
    ResolveExact(payload, catalog, ref.range, ProfileScope, "profile", Some(Experience));
    QuoteTrimmed(payload, catalog, ref.range, ProfileScope, "profile", Experience);
    var quote := ResolveActivity(rules, catalog, rows, ref).entry.quote;
    ExactIsExact(payload, catalog, ref.range, quote);
    QuoteContained(payload, ProfileScope, "profile", Experience, quote);
    var e :| IsEntry(payload, e) && e.scope == ProfileScope && e.field == Experience && Contains(quote, e.text);
    assert Contains(quote, Originals(payload.profile, Experience)[e.index]);
  }

  lemma ExactIsExact(payload: Payload, catalog: map<SourceId, SourceSpan>, range: Range, quote: string)
    requires IsCatalog(payload, catalog)
    requires Resolve(Some(range), catalog, ProfileScope, "profile", Some(Experience)) == Ok(Some(quote))
    ensures ExactQuote(payload, ProfileScope, "profile", Experience, quote)
  {
    hide IsCatalog, Resolve;
    ResolveExact(payload, catalog, range, ProfileScope, "profile", Some(Experience));
  }

  // ----- career strengths

  /** `strength_sources`. */
  function StrengthSources(rows: seq<Row>, related: seq<Related>, point: Strength): Result<seq<Backing>, EvidenceError> {
    if point.requirement >= |rows| then Err(InvalidEvidence)
    else
      var row := rows[point.requirement];
      match point.basis
      case ConditionBasis =>
        if point.condition.None? || point.condition.value >= |row.checks| then Err(InvalidEvidence)
        else
          var check := row.checks[point.condition.value];
          if check.outcome == Supported && check.field.Some? && TextOf(check.quote) != ""
          then Ok([Backing(row.category, check.field.value, check.quote.value, check.condition)]) else Ok([])
      case RequirementBasis =>
        if point.condition.Some? then Err(InvalidEvidence)
        else if row.outcome == Supported && row.field.Some? && TextOf(row.quote) != ""
        then Ok([Backing(row.category, row.field.value, row.quote.value, row.requirement)]) else Ok([])
      case ActivityBasis =>
        if point.condition.Some? then Err(InvalidEvidence) else Ok(Activities(related, point.requirement))
  }

  function Activities(related: seq<Related>, requirement: nat): seq<Backing> {
    if related == [] then []
    else (if related[0].requirement == requirement
          then [Backing(ExperienceRow, Experience, related[0].quote, "Hands-on project experience")] else [])
         + Activities(related[1..], requirement)
  }

  // ----- what a strength may rest on, entry by entry

  /** A point that refers to something: a requirement, and one of its conditions exactly when it rests
      on a condition. */
  predicate WellFormed(rows: seq<Row>, point: Strength) {
    point.requirement < |rows|
    && if point.basis == ConditionBasis
       then point.condition.Some? && point.condition.value < |rows[point.requirement].checks|
       else point.condition.None?
  }

  /** A validated entry that backs a point: its supported requirement, its supported condition, or
      a related activity of its requirement, each with its own category, field, quotation and
      statement. */
  predicate Backs(rows: seq<Row>, related: seq<Related>, point: Strength, b: Backing) {
    WellFormed(rows, point)
    && var row := rows[point.requirement];
       match point.basis
       case RequirementBasis =>
         row.outcome == Supported && row.field == Some(b.field) && row.quote == Some(b.quote) && b.quote != ""
         && b.category == row.category && b.statement == row.requirement
       case ConditionBasis =>
         var check := row.checks[point.condition.value];
         check.outcome == Supported && check.field == Some(b.field) && check.quote == Some(b.quote) && b.quote != ""
         && b.category == row.category && b.statement == check.condition
       case ActivityBasis =>
         Related(point.requirement, b.quote) in related
         && b.category == ExperienceRow && b.field == Experience && b.statement == "Hands-on project experience"
  }

  ghost predicate HasBacking(rows: seq<Row>, related: seq<Related>, point: Strength) {
    exists b :: Backs(rows, related, point, b)
  }

  /** Some entry that backs the point makes its wording safe. */
  ghost predicate SafelyBacked(rules: CareerRules, rows: seq<Row>, related: seq<Related>, point: Strength) {
    exists b :: Backs(rows, related, point, b) && rules.safe(point.text, b)
  }

  /** The first entry that backs the point; only activities offer several. */
  ghost predicate FirstBacking(rows: seq<Row>, related: seq<Related>, point: Strength, b: Backing) {
    Backs(rows, related, point, b)
    && (point.basis == ActivityBasis ==>
          exists i :: 0 <= i < |related| && FirstAt(related, i, point.requirement, b.quote))
  }

  predicate FirstAt(related: seq<Related>, i: nat, requirement: nat, quote: string)
    requires i < |related|
  {
    related[i] == Related(requirement, quote) && forall j :: 0 <= j < i ==> related[j].requirement != requirement
  }

  lemma {:induction false} ActivitiesIff(related: seq<Related>, requirement: nat, b: Backing)
    ensures b in Activities(related, requirement) <==>
      Related(requirement, b.quote) in related && b == Backing(ExperienceRow, Experience, b.quote, "Hands-on project experience")
  {
    if related != [] {
      ActivitiesIff(related[1..], requirement, b);
      assert related == [related[0]] + related[1..];
    }
  }

  lemma {:induction false} FirstActivity(related: seq<Related>, requirement: nat)
    requires Activities(related, requirement) != []
    ensures exists i :: 0 <= i < |related| && FirstAt(related, i, requirement, Activities(related, requirement)[0].quote)
  {
    var rest, quote := related[1..], Activities(related, requirement)[0].quote;
    if related[0].requirement == requirement {
      assert quote == related[0].quote;
      assert FirstAt(related, 0, requirement, quote);
    } else {
      FirstActivity(rest, requirement);
      var i :| 0 <= i < |rest| && FirstAt(rest, i, requirement, quote);
      forall j | 0 <= j < i + 1
        ensures related[j].requirement != requirement
      {
        assert j > 0 ==> related[j] == rest[j - 1];
      }
      assert FirstAt(related, i + 1, requirement, quote);
    }
  }

  /** `strength_sources` accepts exactly the well-formed points and lists exactly what backs them,
      the first backing first. */
  lemma SourcesIff(rows: seq<Row>, related: seq<Related>, point: Strength)
    ensures var r := StrengthSources(rows, related, point);
      && (r.Ok? <==> WellFormed(rows, point))
      && (r.Ok? ==> forall b :: b in r.value <==> Backs(rows, related, point, b))
      && (r.Ok? && r.value != [] ==> FirstBacking(rows, related, point, r.value[0]))
  {
    if point.basis == ActivityBasis && WellFormed(rows, point) {
      forall b
        ensures b in Activities(related, point.requirement) <==> Backs(rows, related, point, b)
      {
        ActivitiesIff(related, point.requirement, b);
      }
      if Activities(related, point.requirement) != [] {
        FirstActivity(related, point.requirement);
        assert Activities(related, point.requirement)[0] in Activities(related, point.requirement);
      }
    }
    hide Activities, FirstAt;
  }

  predicate SafeSomewhere(rules: CareerRules, text: string, sources: seq<Backing>) {
    exists i :: 0 <= i < |sources| && rules.safe(text, sources[i])
  }

  /** What the strength loop does with one point: drop it, or keep it with a safe text. */
  function Reviewed(rules: CareerRules, point: Strength, sources: seq<Backing>): seq<Strength> {
    if sources == [] then []
    else if SafeSomewhere(rules, point.text, sources) then [point]
    else [point.(text := rules.fallback(sources[0]))]
  }

  function ReviewStrengths(rules: CareerRules, rows: seq<Row>, related: seq<Related>, points: seq<Strength>): Result<seq<Strength>, EvidenceError> {
    if points == [] then Ok([])
    else
      var init := ReviewStrengths(rules, rows, related, points[..|points| - 1]);
      if init.Err? then init
      else match StrengthSources(rows, related, points[|points| - 1])
           case Err(e) => Err(e)
           case Ok(sources) => Ok(init.value + Reviewed(rules, points[|points| - 1], sources))
  }

  /** The strength loop of `validate_career_fit`; `adjusted` is its `server_adjusted` flag. */
  method ValidateStrengths(rules: CareerRules, rows: seq<Row>, related: seq<Related>, points: seq<Strength>, adjusted0: bool)
    returns (r: Result<seq<Strength>, EvidenceError>, adjusted: bool)
    ensures r == ReviewStrengths(rules, rows, related, points)
    ensures r.Ok? <==> forall i :: 0 <= i < |points| ==> WellFormed(rows, points[i])
    ensures r.Ok? ==> Follows(rules, rows, related, points, r.value)
    ensures r.Ok? ==> (adjusted <==> adjusted0 || exists i :: 0 <= i < |points| && !SafelyBacked(rules, rows, related, points[i]))
  {
    ReviewIsExact(rules, rows, related, points);
    hide StrengthSources, SafeSomewhere, ReviewStrengths, Follows, WellFormed, SafelyBacked;
    var valid: seq<Strength> := [];
    adjusted := adjusted0;
    var i := 0;
    NothingReviewed(rules, rows, related);
    assert points[..0] == [];
    while i < |points|
      invariant 0 <= i <= |points|
      invariant ReviewStrengths(rules, rows, related, points[..i]) == Ok(valid)
      invariant adjusted <==> adjusted0 || exists j :: 0 <= j < i && !SafelyBacked(rules, rows, related, points[j])
    {
      var point := points[i];
      ReviewStep(rules, rows, related, points, i);
      var sources := StrengthSources(rows, related, point);
      if sources.Err? {
        ReviewStops(rules, rows, related, points, i);
        return Err(InvalidEvidence), adjusted;
      }
      SafeIff(rules, rows, related, point);
      point, adjusted := ReviewPoint(rules, point, sources.value, adjusted);
      assert Reviewed(rules, points[i], sources.value) == if sources.value == [] then [] else [point];
      if sources.value != [] {
        valid := valid + [point];
      } else {
        assert valid + [] == valid;
      }
      i := i + 1;
    }
    assert points[..i] == points;
    r := Ok(valid);
  }

  /** One point with its sources: reworded when no source makes its text safe. */
  method ReviewPoint(rules: CareerRules, point: Strength, sources: seq<Backing>, adjusted0: bool)
    returns (kept: Strength, adjusted: bool)
    ensures Reviewed(rules, point, sources) == if sources == [] then [] else [kept]
    ensures adjusted <==> adjusted0 || !SafeSomewhere(rules, point.text, sources)
  {
    kept, adjusted := point, adjusted0;
    if sources == [] {
      adjusted := true;
    } else if !SafeSomewhere(rules, point.text, sources) {
      kept, adjusted := point.(text := rules.fallback(sources[0])), true;
    }
  }

  lemma NothingReviewed(rules: CareerRules, rows: seq<Row>, related: seq<Related>)
    ensures ReviewStrengths(rules, rows, related, []) == Ok([])
  {
  }

  lemma ReviewStep(rules: CareerRules, rows: seq<Row>, related: seq<Related>, points: seq<Strength>, i: nat)
    requires i < |points| && ReviewStrengths(rules, rows, related, points[..i]).Ok?
    ensures StrengthSources(rows, related, points[i]).Ok? ==>
      ReviewStrengths(rules, rows, related, points[..i + 1]) ==
      Ok(ReviewStrengths(rules, rows, related, points[..i]).value + Reviewed(rules, points[i], StrengthSources(rows, related, points[i]).value))
  {
    hide StrengthSources;
    assert points[..i + 1][..i] == points[..i];
  }

  lemma {:induction false} ReviewStops(rules: CareerRules, rows: seq<Row>, related: seq<Related>, points: seq<Strength>, i: nat)
    requires i < |points| && StrengthSources(rows, related, points[i]).Err?
    ensures ReviewStrengths(rules, rows, related, points) == Err(InvalidEvidence)
    decreases |points|
  {
    if i + 1 < |points| {
      ReviewStops(rules, rows, related, points[..|points| - 1], i);
    }
    var r := ReviewStrengths(rules, rows, related, points);
    assert r.error.InvalidEvidence?;
  }

  /** What the loop keeps of one point: itself, reworded from its first backing unless some backing
      makes its wording safe. */
  ghost predicate KeptFrom(rules: CareerRules, rows: seq<Row>, related: seq<Related>, point: Strength, kept: Strength) {
    && kept == point.(text := kept.text)
    && if SafelyBacked(rules, rows, related, point) then kept.text == point.text
       else exists b :: FirstBacking(rows, related, point, b) && kept.text == rules.fallback(b)
  }

  /** The kept points are exactly those with a backing, in order, each as it should be. */
  ghost predicate Follows(rules: CareerRules, rows: seq<Row>, related: seq<Related>, points: seq<Strength>, kept: seq<Strength>) {
    if points == [] then kept == []
    else
      var init, last := points[..|points| - 1], points[|points| - 1];
      if HasBacking(rows, related, last) then
        kept != [] && KeptFrom(rules, rows, related, last, kept[|kept| - 1]) && Follows(rules, rows, related, init, kept[..|kept| - 1])
      else Follows(rules, rows, related, init, kept)
  }

  lemma SafeIff(rules: CareerRules, rows: seq<Row>, related: seq<Related>, point: Strength)
    requires StrengthSources(rows, related, point).Ok?
    ensures var sources := StrengthSources(rows, related, point).value;
      (SafeSomewhere(rules, point.text, sources) <==> SafelyBacked(rules, rows, related, point))
      && (sources != [] <==> HasBacking(rows, related, point))
  {
    SourcesIff(rows, related, point);
    hide StrengthSources, Backs;
    var sources := StrengthSources(rows, related, point).value;
    if b :| Backs(rows, related, point, b) && rules.safe(point.text, b) {
      var i :| 0 <= i < |sources| && sources[i] == b;
    }
    if sources != [] {
      assert sources[0] in sources;
    }
    if i :| 0 <= i < |sources| && rules.safe(point.text, sources[i]) {
      assert sources[i] in sources;
    }
  }

  /** The strength loop fails exactly on a malformed point, and otherwise keeps exactly the backed
      ones. */
  lemma {:induction false} ReviewIsExact(rules: CareerRules, rows: seq<Row>, related: seq<Related>, points: seq<Strength>)
    ensures var r := ReviewStrengths(rules, rows, related, points);
      && (r.Ok? <==> forall i :: 0 <= i < |points| ==> WellFormed(rows, points[i]))
      && (r.Ok? ==> Follows(rules, rows, related, points, r.value))
  {
    hide StrengthSources, WellFormed, HasBacking, KeptFrom, SafeSomewhere;
    if points != [] {
      var init, last := points[..|points| - 1], points[|points| - 1];
      ReviewIsExact(rules, rows, related, init);
      SourcesIff(rows, related, last);
      assert forall i :: 0 <= i < |init| ==> init[i] == points[i];
      if StrengthSources(rows, related, last).Ok? && ReviewStrengths(rules, rows, related, init).Ok? {
        ReviewedIsExact(rules, rows, related, last);
        SafeIff(rules, rows, related, last);
        var before, sources := ReviewStrengths(rules, rows, related, init).value, StrengthSources(rows, related, last).value;
        var kept := before + Reviewed(rules, last, sources);
        if sources != [] {
          assert kept[..|kept| - 1] == before;
        } else {
          assert kept == before;
        }
      }
    }
  }

  lemma ReviewedIsExact(rules: CareerRules, rows: seq<Row>, related: seq<Related>, point: Strength)
    requires StrengthSources(rows, related, point).Ok?
    ensures var sources := StrengthSources(rows, related, point).value; var kept := Reviewed(rules, point, sources);
      (sources == [] <==> kept == []) && (sources != [] ==> |kept| == 1 && KeptFrom(rules, rows, related, point, kept[0]))
  {
    SourcesIff(rows, related, point);
    SafeIff(rules, rows, related, point);
    hide StrengthSources, SafelyBacked, FirstBacking, SafeSomewhere;
  }

  // ----- the career quotations

  function Fold(fold: char -> string, text: string): string {
    if text == "" then "" else fold(text[0]) + Fold(fold, text[1..])
  }

  lemma {:induction false} FoldConcat(fold: char -> string, x: string, y: string)
    ensures Fold(fold, x + y) == Fold(fold, x) + Fold(fold, y)
  {
    if x == "" {
      assert x + y == y;
    } else {
      assert (x + y)[1..] == x[1..] + y;
      FoldConcat(fold, x[1..], y);
    }
  }

  function DropTail(text: string): (r: string)
    ensures |r| <= |text| && r == text[..|r|]
  {
    if text != "" && text[|text| - 1] in " .;:" then DropTail(text[..|text| - 1]) else text
  }

  /** The career module's own containment: case-folded, whitespace-normalized, and blind to
      trailing punctuation of the quotation. */
  predicate CareerContains(fold: char -> string, quote: string, original: string) {
    In(DropTail(Normal(Fold(fold, quote))), Normal(Fold(fold, original)))
  }

  /** An exact slice passes the career check too, whatever case folding does to characters. */
  lemma SliceCareerContained(fold: char -> string, text: string, lo: nat, hi: nat)
    requires lo <= hi <= |text|
    ensures CareerContains(fold, text[lo..hi], text)
  {
    var quote := text[lo..hi];
    FoldConcat(fold, text[..lo] + quote, text[hi..]);
    FoldConcat(fold, text[..lo], quote);
    assert text == text[..lo] + quote + text[hi..];
    InFromParts(Fold(fold, text[..lo]), Fold(fold, quote), Fold(fold, text[hi..]));
    NormalPreservesIn(Fold(fold, quote), Fold(fold, text));
    var normal := Normal(Fold(fold, quote));
    SliceIn(normal, 0, |DropTail(normal)|);
    InTransitive(DropTail(normal), normal, Normal(Fold(fold, text)));
  }

  // ----- ranks

  /** A job with what decides its place: whether anything in it was flagged. */
  datatype Ranked = Ranked(item: Item, flagged: bool)

  /** The sort key: unflagged before flagged, then the model's rank. */
  predicate Before(a: Ranked, b: Ranked) {
    (!a.flagged && b.flagged) || (a.flagged == b.flagged && a.item.rank < b.item.rank)
  }

  function Insert(x: Ranked, sorted: seq<Ranked>): seq<Ranked> {
    if sorted == [] || Before(x, sorted[0]) then [x] + sorted else [sorted[0]] + Insert(x, sorted[1..])
  }

  /** A stable sort by the key. */
  function Sort(items: seq<Ranked>): seq<Ranked> {
    if items == [] then [] else Insert(items[0], Sort(items[1..]))
  }

  ghost predicate SortedByKey(items: seq<Ranked>) {
    forall i, j :: 0 <= i < j < |items| ==> Before(items[i], items[j])
  }

  predicate DistinctRanks(items: seq<Ranked>) {
    forall i, j :: 0 <= i < j < |items| ==> items[i].item.rank != items[j].item.rank
  }

  lemma {:induction false} InsertMultiset(x: Ranked, sorted: seq<Ranked>)
    ensures multiset(Insert(x, sorted)) == multiset(sorted) + multiset{x}
  {
    hide Before;
    if sorted == [] || Before(x, sorted[0]) {
      assert Insert(x, sorted) == [x] + sorted;
    } else {
      InsertMultiset(x, sorted[1..]);
      assert sorted == [sorted[0]] + sorted[1..];
    }
  }

  lemma InsertMembers(x: Ranked, sorted: seq<Ranked>)
    ensures forall r :: r in Insert(x, sorted) <==> r == x || r in sorted
  {
    InsertMultiset(x, sorted);
    forall r
      ensures r in Insert(x, sorted) <==> r == x || r in sorted
    {
      assert r in Insert(x, sorted) <==> r in multiset(Insert(x, sorted));
    }
  }

  lemma {:induction false} InsertSorted(x: Ranked, sorted: seq<Ranked>)
    requires SortedByKey(sorted) && forall i :: 0 <= i < |sorted| ==> sorted[i].item.rank != x.item.rank
    ensures SortedByKey(Insert(x, sorted))
  {
    if sorted != [] && !Before(x, sorted[0]) {
      var rest := sorted[1..];
      InsertSorted(x, rest);
      InsertMembers(x, rest);
      var tail := Insert(x, rest);
      forall j | 0 <= j < |tail|
        ensures Before(sorted[0], tail[j])
      {
        assert tail[j] in tail;
      }
    }
  }

  lemma {:induction false} SortMultiset(items: seq<Ranked>)
    ensures multiset(Sort(items)) == multiset(items)
  {
    hide Insert;
    if items != [] {
      SortMultiset(items[1..]);
      InsertMultiset(items[0], Sort(items[1..]));
      assert items == [items[0]] + items[1..];
    }
  }

  lemma SortMembers(items: seq<Ranked>)
    ensures forall r :: r in Sort(items) <==> r in items
  {
    SortMultiset(items);
    hide Sort;
    forall r
      ensures r in Sort(items) <==> r in items
    {
      assert r in Sort(items) <==> r in multiset(Sort(items));
    }
  }

  lemma {:induction false} SortSorts(items: seq<Ranked>)
    requires DistinctRanks(items)
    ensures multiset(Sort(items)) == multiset(items) && SortedByKey(Sort(items))
  {
    hide Insert, SortedByKey;
    SortMultiset(items);
    if items == [] {
      SortedNothing();
    } else {
      var rest := items[1..];
      SortSorts(rest);
      SortMembers(rest);
      forall i | 0 <= i < |Sort(rest)|
        ensures Sort(rest)[i].item.rank != items[0].item.rank
      {
        assert Sort(rest)[i] in rest;
      }
      InsertSorted(items[0], Sort(rest));
    }
  }

  lemma SortedNothing()
    ensures SortedByKey([])
  {
  }

  function Placed(ranked: Ranked, rank: nat): Ranked {
    ranked.(item := ranked.item.(rank := rank))
  }

  function Reranked(sorted: seq<Ranked>): (r: seq<Ranked>)
    ensures |r| == |sorted| && forall i :: 0 <= i < |r| ==> r[i] == Placed(sorted[i], i + 1)
  {
    seq(|sorted|, i requires 0 <= i < |sorted| => Placed(sorted[i], i + 1))
  }

  /** The last two statements of `prioritize_assessment`: sort, then number from one in place. */
  method Rank(items: array<Ranked>)
    requires DistinctRanks(items[..])
    modifies items
    ensures items[..] == Reranked(Sort(old(items[..])))
  {
    var sorted := Sort(items[..]);
    SortSorts(items[..]);
    assert |sorted| == items.Length by {
      assert |multiset(sorted)| == |multiset(items[..])|;
    }
    var rank := 0;
    while rank < items.Length
      invariant 0 <= rank <= items.Length == |sorted|
      invariant forall i :: 0 <= i < rank ==> items[i] == Placed(sorted[i], i + 1)
    {
      items[rank] := Placed(sorted[rank], rank + 1);
      rank := rank + 1;
    }
  }

  /** After ranking: the same jobs, numbered 1 to N, every flagged job after every unflagged
      one, and the model's order kept inside each of the two groups. */
  lemma RankingMeaning(items: seq<Ranked>)
    requires DistinctRanks(items)
    ensures var sorted, r := Sort(items), Reranked(Sort(items));
      && |r| == |sorted| == |items| && multiset(sorted) == multiset(items)
      && (forall i :: 0 <= i < |r| ==> r[i] == Placed(sorted[i], i + 1))
      && (forall i, j :: 0 <= i < j < |r| ==> !(sorted[i].flagged && !sorted[j].flagged))
      && (forall i, j :: 0 <= i < j < |r| && sorted[i].flagged == sorted[j].flagged ==> sorted[i].item.rank < sorted[j].item.rank)
  {
    SortSorts(items);
    assert |multiset(Sort(items))| == |multiset(items)|;
    var sorted := Sort(items);
    assert forall i, j :: 0 <= i < j < |sorted| ==> Before(sorted[i], sorted[j]);
  }
}
