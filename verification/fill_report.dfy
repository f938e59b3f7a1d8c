/** The writing half of a fill, its report, and the two consumers that check it: the transport
    parser and the popup. */
module FillReports {
  import opened Wrappers
  import opened Sequences
  import opened ATSFills

  // ----- writing

  /** What the page does with one item: it is gone before anything is written, it fails after the
      attempt began, or the answer stays. */
  datatype Outcome = Gone(message: string) | Failed(message: string) | Wrote(invalid: bool)

  const DEFAULT_REASON: string := "Complete this answer on the original website."

  datatype Report = Report(
    filled: seq<string>, skipped: seq<string>, reasons: map<string, string>,
    websiteChoice: seq<string>, correction: seq<string>)

  const Blank: Report := Report([], [], map[], [], [])

  function ReasonOf(outcome: Outcome): string
    requires !outcome.Wrote?
  {
    if outcome.message == "" then DEFAULT_REASON else outcome.message
  }

  predicate WantsWebsite(r: Reviewed) {
    !r.field.choice && !r.field.studentCheckbox && r.field.requiresWebsiteChoice
  }

  predicate WantsCorrection(r: Reviewed, outcome: Outcome) {
    outcome.Wrote? && outcome.invalid && !r.field.choice && !r.field.studentCheckbox && r.field.kind == "text"
  }

  function AddOutcome(report: Report, r: Reviewed, outcome: Outcome): Report {
    if outcome.Wrote? then
      report.(filled := report.filled + [r.id],
              websiteChoice := if WantsWebsite(r) then report.websiteChoice + [r.id] else report.websiteChoice,
              correction := if WantsCorrection(r, outcome) then report.correction + [r.id] else report.correction)
    else report.(skipped := report.skipped + [r.id], reasons := report.reasons[r.id := ReasonOf(outcome)])
  }

  function Fill(reviewed: seq<Reviewed>, page: nat -> Outcome): Report {
    if reviewed == [] then Blank
    else AddOutcome(Fill(reviewed[..|reviewed| - 1], page), reviewed[|reviewed| - 1], page(|reviewed| - 1))
  }

  /** The write loop. `started` is the script's `mutationStarted`. */
  method FillFields(reviewed: seq<Reviewed>, page: nat -> Outcome) returns (report: Report, started: bool)
    ensures report == Fill(reviewed, page)
    ensures started <==> exists i :: 0 <= i < |reviewed| && !page(i).Gone?
  {
    hide Fill, AddOutcome;
    report, started := Blank, false;
    NothingFilled(page);
    assert reviewed[..0] == [];
    for i := 0 to |reviewed|
      invariant report == Fill(reviewed[..i], page)
      invariant started <==> exists j :: 0 <= j < i && !page(j).Gone?
    {
      FillStep(reviewed, page, i);
      started := started || !page(i).Gone?;
      report := FillField(report, reviewed[i], page(i));
    }
    assert reviewed[..|reviewed|] == reviewed;
  }

  lemma NothingFilled(page: nat -> Outcome)
    ensures Fill([], page) == Blank
  {
  }

  lemma FillStep(reviewed: seq<Reviewed>, page: nat -> Outcome, i: nat)
    requires i < |reviewed|
    ensures Fill(reviewed[..i + 1], page) == AddOutcome(Fill(reviewed[..i], page), reviewed[i], page(i))
  {
    assert reviewed[..i + 1][..i] == reviewed[..i];
  }

  /** One turn of the write loop, with its catch branch. */
  method FillField(before: Report, r: Reviewed, outcome: Outcome) returns (report: Report)
    ensures report == AddOutcome(before, r, outcome)
  {
    report := before;
    if !outcome.Wrote? {
      report := report.(skipped := report.skipped + [r.id], reasons := report.reasons[r.id := ReasonOf(outcome)]);
      return;
    }
    report := report.(filled := report.filled + [r.id]);
    if !r.field.choice && !r.field.studentCheckbox {
      if r.field.requiresWebsiteChoice {
        report := report.(websiteChoice := report.websiteChoice + [r.id]);
      }
      if outcome.invalid && r.field.kind == "text" {
        report := report.(correction := report.correction + [r.id]);
      }
    }
  }

  // ----- the response of one injected call

  datatype Response = Refused(mutationStarted: bool, rejection: Rejection, stage: string) | Reported(report: Report)

  /** Reading the form can fail too, at an earlier stage and with its own code. */
  datatype Reading = Read(fields: seq<Field>) | Unreadable(code: string, stage: string)

  /** One fill call. Either it answers before any write, saying so, or it reports on every item. */
  method Interact(tests: Tests, reading: Reading, approved: Approved, page: nat -> Outcome)
    returns (response: Response, started: bool)
    ensures response.Refused? <==> reading.Unreadable? || Preflight(tests, reading.fields, approved).Err?
    ensures response.Refused? ==> !started && !response.mutationStarted
    ensures response.Refused? && reading.Read? ==> response.rejection == Preflight(tests, reading.fields, approved).error
    ensures response.Reported? ==>
      var reviewed := Preflight(tests, reading.fields, approved).value;
      response.report == Fill(reviewed, page) && (started <==> exists i :: 0 <= i < |reviewed| && !page(i).Gone?)
  {
    started := false;
    if reading.Unreadable? {
      return Refused(started, Rejection(reading.code, None, None), reading.stage), started;
    }
    var reviewed := RunPreflight(tests, reading.fields, approved);
    if reviewed.Err? {
      return Refused(started, reviewed.error, "fill_preflight"), started;
    }
    var report;
    report, started := FillFields(reviewed.value, page);
    return Reported(report), started;
  }

  // ----- a report partitions the approved ids

  predicate NoRepeats(ids: seq<string>) {
    forall i, j :: 0 <= i < j < |ids| ==> ids[i] != ids[j]
  }

  ghost predicate Within(ids: seq<string>, all: seq<string>) {
    forall id :: id in ids ==> id in all
  }

  ghost predicate Partitions(report: Report, ids: seq<string>) {
    && multiset(report.filled) + multiset(report.skipped) == multiset(ids)
    && (forall id :: id in report.reasons <==> id in report.skipped)
    && Within(report.websiteChoice, report.filled) && Within(report.correction, report.filled)
    && NoRepeats(report.websiteChoice) && NoRepeats(report.correction)
  }

  lemma {:induction false} NoRepeatsMultiset(ids: seq<string>)
    ensures NoRepeats(ids) <==> forall id :: multiset(ids)[id] <= 1
  {
    if ids != [] {
      var init, last := ids[..|ids| - 1], ids[|ids| - 1];
      NoRepeatsMultiset(init);
      assert ids == init + [last];
      if NoRepeats(ids) {
        assert last !in init;
        forall id
          ensures multiset(ids)[id] <= 1
        {
          assert multiset(init)[id] <= 1;
        }
      }
      if forall id :: multiset(ids)[id] <= 1 {
        forall id
          ensures multiset(init)[id] <= 1
        {
          assert multiset(ids)[id] <= 1;
        }
        assert multiset(ids)[last] <= 1;
        assert last !in multiset(init);
      }
    }
  }

  lemma PartitionGrows(report: Report, ids: seq<string>, r: Reviewed, outcome: Outcome)
    requires Partitions(report, ids) && r.id !in ids
    ensures Partitions(AddOutcome(report, r, outcome), ids + [r.id])
  {
    assert r.id !in multiset(ids);
    assert r.id !in multiset(report.filled);
    assert r.id !in report.filled;
    var longer := AddOutcome(report, r, outcome);
    assert multiset(longer.filled) + multiset(longer.skipped) == multiset(ids + [r.id]);
  }

  /** For distinct ids, every page: each id is filled or skipped, exactly once, with a reason for
      each skipped one. */
  lemma {:induction false} FillPartitions(reviewed: seq<Reviewed>, page: nat -> Outcome)
    requires NoRepeats(IdsOf(reviewed))
    ensures Partitions(Fill(reviewed, page), IdsOf(reviewed))
  {
    if reviewed != [] {
      var init, last := reviewed[..|reviewed| - 1], reviewed[|reviewed| - 1];
      assert IdsOf(init) == IdsOf(reviewed)[..|reviewed| - 1];
      FillPartitions(init, page);
      PartitionGrows(Fill(init, page), IdsOf(init), last, page(|reviewed| - 1));
      assert IdsOf(init) + [last.id] == IdsOf(reviewed);
    }
  }

  // ----- what a report says of each item

  /** The answer stays, and the option list of this ordinary field has to be settled on the website. */
  predicate NeedsWebsite(r: Reviewed, outcome: Outcome) {
    outcome.Wrote? && r.field.requiresWebsiteChoice && !(r.field.choice || r.field.studentCheckbox)
  }

  /** The answer stays in an ordinary text field that the browser calls invalid. */
  predicate NeedsCorrection(r: Reviewed, outcome: Outcome) {
    outcome.Wrote? && outcome.invalid && r.field.kind == "text" && !(r.field.choice || r.field.studentCheckbox)
  }

  /** What the report says of this item, which met this outcome. */
  predicate Reports(report: Report, r: Reviewed, outcome: Outcome) {
    && (r.id in report.filled <==> outcome.Wrote?) && (r.id in report.skipped <==> !outcome.Wrote?)
    && (r.id in report.websiteChoice <==> NeedsWebsite(r, outcome))
    && (r.id in report.correction <==> NeedsCorrection(r, outcome))
    && match outcome
       case Wrote(_) => r.id !in report.reasons
       case Gone(message) => GivesReason(report, r.id, message)
       case Failed(message) => GivesReason(report, r.id, message)
  }

  predicate GivesReason(report: Report, id: string, message: string) {
    id in report.reasons && report.reasons[id] == if |message| > 0 then message else "Complete this answer on the original website."
  }

  /** With distinct ids, the report says of each item what the page did with it. */
  lemma {:induction false} ReportsEach(reviewed: seq<Reviewed>, page: nat -> Outcome, i: nat)
    requires NoRepeats(IdsOf(reviewed)) && i < |reviewed|
    ensures Reports(Fill(reviewed, page), reviewed[i], page(i))
  {
    var n := |reviewed| - 1;
    var init, last := reviewed[..n], reviewed[n];
    var ids := IdsOf(reviewed);
    assert IdsOf(init) == ids[..n] && ids[n] == last.id && ids[i] == reviewed[i].id;
    if i < n {
      ReportsEach(init, page, i);
      OneMore(Fill(init, page), last, page(n), reviewed[i], page(i));
    } else {
      forall k | 0 <= k < |IdsOf(init)|
        ensures IdsOf(init)[k] != last.id
      {
        assert ids[k] != ids[n];
      }
      ReportsNothing(init, page, last.id);
      Added(Fill(init, page), last, page(n));
    }
  }

  predicate Silent(report: Report, id: string) {
    id !in report.filled && id !in report.skipped && id !in report.reasons && id !in report.websiteChoice && id !in report.correction
  }

  lemma OneMore(report: Report, r: Reviewed, outcome: Outcome, other: Reviewed, met: Outcome)
    requires Reports(report, other, met) && r.id != other.id
    ensures Reports(AddOutcome(report, r, outcome), other, met)
  {
    hide NeedsWebsite, NeedsCorrection, ReasonOf;
  }

  lemma Added(report: Report, r: Reviewed, outcome: Outcome)
    requires Silent(report, r.id)
    ensures Reports(AddOutcome(report, r, outcome), r, outcome)
  {
  }

  lemma {:induction false} ReportsNothing(reviewed: seq<Reviewed>, page: nat -> Outcome, id: string)
    requires id !in IdsOf(reviewed)
    ensures Silent(Fill(reviewed, page), id)
  {
    hide ReasonOf;
    if reviewed != [] {
      var init, last := reviewed[..|reviewed| - 1], reviewed[|reviewed| - 1];
      assert IdsOf(reviewed)[|reviewed| - 1] == last.id;
      forall k | 0 <= k < |IdsOf(init)|
        ensures IdsOf(init)[k] != id
      {
        assert IdsOf(reviewed)[k] == IdsOf(init)[k];
      }
      ReportsNothing(init, page, id);
    }
  }

  /** Every list of a report is in the order in which the items were written. */
  lemma {:induction false} ReportsInOrder(reviewed: seq<Reviewed>, page: nat -> Outcome)
    ensures var report, ids := Fill(reviewed, page), IdsOf(reviewed);
      && PartOf(report.filled, ids) && PartOf(report.skipped, ids)
      && PartOf(report.websiteChoice, ids) && PartOf(report.correction, ids)
  {
    hide ReasonOf, WantsWebsite, WantsCorrection;
    if reviewed != [] {
      var init, last := reviewed[..|reviewed| - 1], reviewed[|reviewed| - 1];
      ReportsInOrder(init, page);
      var before, ids := Fill(init, page), IdsOf(init);
      assert IdsOf(reviewed) == ids + [last.id];
      PartOfGrows(before.filled, ids, last.id);
      PartOfGrows(before.skipped, ids, last.id);
      PartOfGrows(before.websiteChoice, ids, last.id);
      PartOfGrows(before.correction, ids, last.id);
      hide PartOf, IdsOf;
    }
  }

  // ----- the popup's check

  function IdSet(ids: seq<string>): set<string> {
    set i | 0 <= i < |ids| :: ids[i]
  }

  /** `checkedFillResult`: whether the popup accepts a report for these items. */
  predicate Checked(report: Report, ids: seq<string>) {
    var all := report.filled + report.skipped;
    && |all| == |IdSet(ids)| && NoRepeats(all) && IdSet(all) <= IdSet(ids)
    && report.reasons.Keys <= IdSet(report.skipped)
    && NoRepeats(report.websiteChoice) && IdSet(report.websiteChoice) <= IdSet(report.filled)
    && NoRepeats(report.correction) && IdSet(report.correction) <= IdSet(report.filled)
  }

  lemma {:induction false} IdSetSize(ids: seq<string>)
    requires NoRepeats(ids)
    ensures |IdSet(ids)| == |ids|
  {
    if ids == [] {
      assert IdSet(ids) == {};
    } else {
      var init, last := ids[..|ids| - 1], ids[|ids| - 1];
      IdSetSize(init);
      assert IdSet(ids) == IdSet(init) + {last} by {
        assert forall i :: 0 <= i < |init| ==> init[i] == ids[i];
      }
      assert last !in init;
    }
  }

  lemma IdSetMembers(ids: seq<string>)
    ensures forall id :: id in IdSet(ids) <==> id in ids
  {
  }

  lemma SameSizeSubset(a: set<string>, b: set<string>)
    requires a <= b && |a| == |b|
    ensures a == b
  {
    assert b == a + (b - a);
  }

  /** What the popup's check means: nothing is missing, doubled or invented. */
  lemma CheckedIff(report: Report, ids: seq<string>)
    requires NoRepeats(ids)
    ensures Checked(report, ids) <==>
      && multiset(report.filled) + multiset(report.skipped) == multiset(ids)
      && (forall id :: id in report.reasons ==> id in report.skipped)
      && Within(report.websiteChoice, report.filled) && Within(report.correction, report.filled)
      && NoRepeats(report.websiteChoice) && NoRepeats(report.correction)
  {
    var all := report.filled + report.skipped;
    assert multiset(all) == multiset(report.filled) + multiset(report.skipped);
    IdSetSize(ids);
    PermutationIff(all, ids);
    IdSetMembers(report.skipped);
    IdSetMembers(report.filled);
    IdSetMembers(report.websiteChoice);
    IdSetMembers(report.correction);
    hide NoRepeats, IdSet;
  }

  lemma PermutationIff(all: seq<string>, ids: seq<string>)
    requires NoRepeats(ids)
    ensures (|all| == |ids| && NoRepeats(all) && IdSet(all) <= IdSet(ids)) <==> multiset(all) == multiset(ids)
  {
    NoRepeatsMultiset(all);
    NoRepeatsMultiset(ids);
    IdSetSize(ids);
    IdSetMembers(all);
    IdSetMembers(ids);
    if |all| == |ids| && NoRepeats(all) && IdSet(all) <= IdSet(ids) {
      IdSetSize(all);
      SameSizeSubset(IdSet(all), IdSet(ids));
      forall id
        ensures multiset(all)[id] == multiset(ids)[id]
      {
        assert id in all <==> id in ids;
        assert id in multiset(all) <==> id in multiset(ids);
        assert multiset(all)[id] <= 1 && multiset(ids)[id] <= 1;
      }
    }
    if multiset(all) == multiset(ids) {
      assert |all| == |multiset(all)| == |multiset(ids)| == |ids|;
      forall id | id in all
        ensures id in ids
      {
        assert id in multiset(all);
      }
    }
  }

  // ----- the transport parser

  const CODES: set<string> := {"unsupported_page", "url_changed", "page_changed", "ambiguous_fields", "invalid_review",
    "option_changed", "invalid_choice", "invalid_date", "fill_failed"}

  const MISMATCHES: set<string> := {"missing_field", "manual_only", "unavailable", "key", "label", "kind", "evidence_key",
    "max_length", "action", "answers_type", "answers_count", "duplicate_id", "item_shape", "id_type", "value_type",
    "empty_value", "value_limit", "confirmation", "incompatible_answers"}

  /** One injection result. A `Strange` payload is any other value the browser may hand back. */
  datatype Payload = Missing | Answer(response: Response) | Strange
  datatype Envelope = Envelope(frame: Option<int>, document: Js, payload: Payload)

  /** `rejected` is the claim that nothing was filled; otherwise the fill is uncertain. */
  datatype FillError = FillError(rejected: bool, code: string, stage: string, mismatch: Option<string>, fieldId: Option<string>)

  predicate Trusted(results: Option<seq<Option<Envelope>>>, expected: string) {
    results.Some? && |results.value| == 1 && results.value[0].Some?
    && var e := results.value[0].value;
       (e.frame.None? || e.frame == Some(0)) && e.document.Str? && e.document.s != ""
       && (expected != "" ==> e.document.s == expected)
  }

  function ParseRefusal(tests: Tests, mutationStarted: bool, rejection: Rejection, stage: string): FillError {
    var code := if rejection.code in CODES then rejection.code else "fill_failed";
    var known := code == "invalid_review" && rejection.mismatch.Some? && rejection.mismatch.value in MISMATCHES;
    FillError(!mutationStarted, code, if tests.stageName(stage) then stage else "fill",
              if known then rejection.mismatch else None,
              if known && rejection.fieldId.Some? && tests.publicId(rejection.fieldId.value) then rejection.fieldId else None)
  }

  function ParseFill(tests: Tests, results: Option<seq<Option<Envelope>>>, expected: string): Result<Report, FillError> {
    var lost := Err(FillError(false, "missing_fill_result", "transport", None, None));
    if !Trusted(results, expected) then lost
    else
      match results.value[0].value.payload
      case Answer(Refused(started, rejection, stage)) => Err(ParseRefusal(tests, started, rejection, stage))
      case Answer(Reported(report)) => Ok(report)
      case _ => lost
  }

  /** The reader is told that nothing was filled only if the script itself says it had not begun. */
  lemma RejectedMeansUntouched(tests: Tests, results: Option<seq<Option<Envelope>>>, expected: string)
    requires ParseFill(tests, results, expected).Err? && ParseFill(tests, results, expected).error.rejected
    ensures Trusted(results, expected)
    ensures var payload := results.value[0].value.payload;
      payload.Answer? && payload.response.Refused? && !payload.response.mutationStarted
  {
  }

  /** One answer from the top frame of the expected document. */
  ghost predicate FromDocument(results: Option<seq<Option<Envelope>>>, expected: string, payload: Payload) {
    exists frame, name :: results == Some([Some(Envelope(frame, Str(name), payload))])
      && frame in {None, Some(0)} && |name| > 0 && (expected == "" || expected == name)
  }

  /** Exactly when a report is taken: it is the only answer, from the top frame of the expected
      document. An answer that is not a refusal either, or comes from elsewhere, is uncertain. */
  lemma ParseIff(tests: Tests, results: Option<seq<Option<Envelope>>>, expected: string, report: Report)
    ensures ParseFill(tests, results, expected) == Ok(report) <==> FromDocument(results, expected, Answer(Reported(report)))
    ensures ParseFill(tests, results, expected).Err? && ParseFill(tests, results, expected).error.code == "missing_fill_result" <==>
      !exists response :: FromDocument(results, expected, Answer(response))
  {
    TrustedIff(results, expected);
    hide Trusted;
    if Trusted(results, expected) {
      var payload := results.value[0].value.payload;
      forall other | FromDocument(results, expected, other)
        ensures other == payload
      {
      }
      assert FromDocument(results, expected, payload);
      hide FromDocument;
      assert "missing_fill_result" !in CODES;
      if payload.Answer? {
        assert FromDocument(results, expected, Answer(payload.response));
      }
    }
  }

  lemma TrustedIff(results: Option<seq<Option<Envelope>>>, expected: string)
    ensures Trusted(results, expected) <==> exists payload :: FromDocument(results, expected, payload)
    ensures Trusted(results, expected) ==> FromDocument(results, expected, results.value[0].value.payload)
  {
    if Trusted(results, expected) {
      var e := results.value[0].value;
      assert results.value == [Some(Envelope(e.frame, Str(e.document.s), e.payload))];
      assert FromDocument(results, expected, e.payload);
    }
  }

  /** What the reader is told of any refusal, well formed or not: a known code, a known mismatch only
      with an invalid review, a field only if it is public and belongs to such a mismatch, and a stage
      name; whatever is legal is passed on as it is. */
  lemma RefusalIsVetted(tests: Tests, started: bool, rejection: Rejection, stage: string)
    ensures var e := ParseRefusal(tests, started, rejection, stage);
      && e.code in CODES && e.code != "missing_fill_result" && (e.rejected <==> !started)
      && (e.mismatch.Some? ==> e.code == "invalid_review" && e.mismatch.value in MISMATCHES && e.mismatch == rejection.mismatch)
      && (e.fieldId.Some? ==> e.mismatch.Some? && tests.publicId(e.fieldId.value) && e.fieldId == rejection.fieldId)
      && (tests.stageName(stage) ==> e.stage == stage) && (!tests.stageName(stage) ==> e.stage == "fill")
      && (rejection.code in CODES ==> e.code == rejection.code) && (rejection.code !in CODES ==> e.code == "fill_failed")
      && (rejection.code == "invalid_review" && rejection.mismatch.Some? && rejection.mismatch.value in MISMATCHES ==>
            e.mismatch == rejection.mismatch
            && (rejection.fieldId.Some? && tests.publicId(rejection.fieldId.value) ==> e.fieldId == rejection.fieldId))
  {
  }

  // ----- every preflight refusal survives the transport

  predicate Explained(tests: Tests, e: Rejection) {
    && e.code in CODES
    && (e.mismatch.Some? ==> e.code == "invalid_review" && e.mismatch.value in MISMATCHES)
    && (e.mismatch.None? ==> e.fieldId.None?)
    && (e.fieldId.Some? && e.mismatch != Some("incompatible_answers") ==> tests.publicId(e.fieldId.value))
  }

  lemma ShapeExplained(tests: Tests, items: seq<Item>, i: nat)
    requires i < |items| && ShapeAt(tests, items, i).Some?
    ensures Explained(tests, ShapeAt(tests, items, i).value)
  {
  }

  lemma {:induction false} ShapesExplained(tests: Tests, items: seq<Item>, n: nat)
    requires n <= |items| && Shapes(tests, items, n).Some?
    ensures Explained(tests, Shapes(tests, items, n).value)
  {
    hide ShapeAt, Explained;
    if Shapes(tests, items, n - 1).Some? {
      ShapesExplained(tests, items, n - 1);
    } else {
      ShapeExplained(tests, items, n - 1);
    }
  }

  lemma ItemExplained(tests: Tests, fields: seq<Field>, item: Item)
    requires Shaped(item) && ReviewItem(tests, fields, item).Err?
    ensures Explained(tests, ReviewItem(tests, fields, item).error)
  {
    hide Offers, FirstWithId;
  }

  lemma {:induction false} ReviewExplained(tests: Tests, fields: seq<Field>, items: seq<Item>)
    requires forall i :: 0 <= i < |items| ==> Shaped(items[i])
    requires ReviewAll(tests, fields, items).Err?
    ensures Explained(tests, ReviewAll(tests, fields, items).error)
  {
    hide ReviewItem, Explained;
    var init := items[..|items| - 1];
    if ReviewAll(tests, fields, init).Err? {
      ReviewExplained(tests, fields, init);
    } else {
      ItemExplained(tests, fields, items[|items| - 1]);
    }
  }

  lemma PreflightExplained(tests: Tests, fields: seq<Field>, approved: Approved)
    requires Preflight(tests, fields, approved).Err?
    ensures Explained(tests, Preflight(tests, fields, approved).error)
  {
    if approved.Items? && |approved.items| <= MAX_ITEMS {
      hide Explained, ReviewItem, ShapeAt;
      var items := approved.items;
      if Shapes(tests, items, |items|).Some? {
        ShapesExplained(tests, items, |items|);
      } else {
        ShapedItems(tests, items);
        if ReviewAll(tests, fields, items).Err? {
          ReviewExplained(tests, fields, items);
        } else {
          IncompatibleExplained(tests, ReviewAll(tests, fields, items).value);
        }
      }
    }
  }

  lemma IncompatibleExplained(tests: Tests, reviewed: seq<Reviewed>)
    requires Ordered(reviewed).Err?
    ensures Explained(tests, Ordered(reviewed).error)
  {
  }

  /** A refusal reaches the popup as a rejection with the same code, the same mismatch and the
      same public field. */
  lemma RefusalRoundTrip(tests: Tests, fields: seq<Field>, approved: Approved, document: string)
    requires Preflight(tests, fields, approved).Err? && document != "" && tests.stageName("fill_preflight")
    ensures var e := Preflight(tests, fields, approved).error;
      var sent := Some([Some(Envelope(Some(0), Str(document), Answer(Refused(false, e, "fill_preflight"))))]);
      ParseFill(tests, sent, document) == Err(FillError(true, e.code, "fill_preflight", e.mismatch,
        if e.fieldId.Some? && tests.publicId(e.fieldId.value) then e.fieldId else None))
  {
    PreflightExplained(tests, fields, approved);
    hide Preflight;
  }

  // ----- every report passes both checks

  function NameOf(item: Item): string {
    if item.Item? && item.id.Str? then item.id.s else ""
  }

  function ItemIds(items: seq<Item>): (r: seq<string>)
    ensures |r| == |items| && forall i :: 0 <= i < |r| ==> r[i] == NameOf(items[i])
  {
    seq(|items|, i requires 0 <= i < |items| => NameOf(items[i]))
  }

  lemma {:induction false} ReviewKeepsIds(tests: Tests, fields: seq<Field>, items: seq<Item>)
    requires forall i :: 0 <= i < |items| ==> Shaped(items[i])
    requires ReviewAll(tests, fields, items).Ok?
    ensures IdsOf(ReviewAll(tests, fields, items).value) == ItemIds(items)
  {
    hide ReviewItem;
    if items != [] {
      ReviewKeepsIds(tests, fields, items[..|items| - 1]);
    }
  }

  lemma IdsCons(first: Reviewed, rest: seq<Reviewed>)
    ensures IdsOf([first] + rest) == [first.id] + IdsOf(rest)
    ensures multiset(IdsOf([first] + rest)) == multiset{first.id} + multiset(IdsOf(rest))
  {
  }

  lemma {:induction false} SortKeepsIds(reviewed: seq<Reviewed>)
    ensures multiset(IdsOf(Students(reviewed, true))) + multiset(IdsOf(Students(reviewed, false))) == multiset(IdsOf(reviewed))
  {
    hide IdsOf;
    if reviewed != [] {
      var rest, first := reviewed[1..], reviewed[0];
      SortKeepsIds(rest);
      assert reviewed == [first] + rest;
      IdsCons(first, rest);
      IdsCons(first, Students(rest, first.field.studentCheckbox));
    }
  }

  lemma OrderedIds(reviewed: seq<Reviewed>)
    requires Ordered(reviewed).Ok?
    ensures multiset(IdsOf(Ordered(reviewed).value)) == multiset(IdsOf(reviewed))
  {
    SortKeepsIds(reviewed);
    IdsConcat(Students(reviewed, true), Students(reviewed, false));
    hide IdsOf, Students;
  }

  lemma IdsConcat(a: seq<Reviewed>, b: seq<Reviewed>)
    ensures multiset(IdsOf(a + b)) == multiset(IdsOf(a)) + multiset(IdsOf(b))
  {
    assert IdsOf(a + b) == IdsOf(a) + IdsOf(b);
  }

  /** Against every page, an approved fill returns a report that lists each approved id exactly
      once and that both the transport parser and the popup accept. */
  lemma ReportIsAccepted(tests: Tests, fields: seq<Field>, items: seq<Item>, page: nat -> Outcome, document: string)
    requires Preflight(tests, fields, Items(items)).Ok? && document != ""
    ensures forall i :: 0 <= i < |items| ==> Shaped(items[i])
    ensures var report := Fill(Preflight(tests, fields, Items(items)).value, page);
      && Partitions(report, ItemIds(items)) && Checked(report, ItemIds(items))
      && ParseFill(tests, Some([Some(Envelope(Some(0), Str(document), Answer(Reported(report))))]), document) == Ok(report)
  {
    hide Fill, Checked, Preflight, Partitions;
    ApprovedIds(tests, fields, items);
    var order, ids := Preflight(tests, fields, Items(items)).value, ItemIds(items);
    FillPartitions(order, page);
    SamePartition(Fill(order, page), IdsOf(order), ids);
    PartitionIs(Fill(order, page), ids);
    CheckedIff(Fill(order, page), ids);
  }

  /** The write order is a permutation of distinct approved ids. */
  lemma ApprovedIds(tests: Tests, fields: seq<Field>, items: seq<Item>)
    requires Preflight(tests, fields, Items(items)).Ok?
    ensures forall i :: 0 <= i < |items| ==> Shaped(items[i])
    ensures var order := Preflight(tests, fields, Items(items)).value;
      NoRepeats(ItemIds(items)) && NoRepeats(IdsOf(order)) && multiset(IdsOf(order)) == multiset(ItemIds(items))
  {
    hide ReviewAll, ReviewItem, ShapeAt, IdsOf;
    ShapedItems(tests, items);
    ShapesIff(tests, items);
    var reviewed := ReviewAll(tests, fields, items).value;
    ReviewKeepsIds(tests, fields, items);
    OrderedIds(reviewed);
    var order, ids := Ordered(reviewed).value, ItemIds(items);
    hide Ordered;
    DistinctNames(items);
    NoRepeatsMultiset(ids);
    NoRepeatsMultiset(IdsOf(order));
  }

  lemma DistinctNames(items: seq<Item>)
    requires DistinctIds(items) && forall i :: 0 <= i < |items| ==> Shaped(items[i])
    ensures NoRepeats(ItemIds(items))
  {
    assert forall i :: 0 <= i < |items| ==> IdOf(items[i]) == Str(ItemIds(items)[i]);
  }

  lemma SamePartition(report: Report, a: seq<string>, b: seq<string>)
    requires Partitions(report, a) && multiset(a) == multiset(b)
    ensures Partitions(report, b)
  {
  }

  lemma PartitionIs(report: Report, ids: seq<string>)
    requires Partitions(report, ids)
    ensures multiset(report.filled) + multiset(report.skipped) == multiset(ids)
    ensures (forall id :: id in report.reasons ==> id in report.skipped)
    ensures Within(report.websiteChoice, report.filled) && Within(report.correction, report.filled)
    ensures NoRepeats(report.websiteChoice) && NoRepeats(report.correction)
  {
  }
}
