/** One reviewed fill of an application form: preflight, item-by-item writes against an arbitrary
    page, and the report. */
module ATSFills {
  import opened Wrappers
  import opened Sequences

  // ----- inputs

  /** A script value as far as the preflight looks at it; a missing property is `Undefined`. */
  datatype Js = Undefined | Null | Bool(on: bool) | Num(n: int) | Str(s: string) | Other(reference: nat)

  datatype Item =
    | Scalar(truthy: bool)
    | Item(id: Js, key: Js, title: Js, kind: Js, value: Js, optionLabel: Js, evidenceKey: Js, confirmed: Js)

  datatype Approved = NotAnArray | Items(items: seq<Item>)

  datatype Choice = Choice(value: string, text: string)

  /** What the form reader found; `choice` marks radio groups and the student checkbox. */
  datatype Field = Field(
    id: string, key: string, title: string, kind: string, manualOnly: bool, available: bool, evidenceKey: Js,
    maxLength: int, options: seq<Choice>, requiresWebsiteChoice: bool, choice: bool, studentCheckbox: bool)

  /** The text tests of the scripts: blank after trimming, a real ISO date, a public id, a stage
      name. */
  datatype Tests = Tests(blank: string -> bool, realDate: string -> bool, publicId: string -> bool, stageName: string -> bool)

  const MAX_ITEMS: nat := 60
  const MAX_VALUE: nat := 10000

  // ----- the preflight, in the order of the script

  datatype Rejection = Rejection(code: string, mismatch: Option<string>, fieldId: Option<string>)

  function IdOf(item: Item): Js {
    if item.Item? then item.id else Undefined
  }

  function PublicId(tests: Tests, id: Js): Option<string> {
    if id.Str? && tests.publicId(id.s) then Some(id.s) else None
  }

  function Shape(mismatch: string, fieldId: Option<string>): Rejection {
    Rejection("invalid_review", Some(mismatch), fieldId)
  }

  function ItemShape(tests: Tests, item: Item): Option<Rejection> {
    if !item.Item? then (if item.truthy then Some(Shape("id_type", None)) else Some(Shape("item_shape", None)))
    else if !item.id.Str? then Some(Shape("id_type", None))
    else
      var id := PublicId(tests, item.id);
      if !item.value.Str? then Some(Shape("value_type", id))
      else if tests.blank(item.value.s) then Some(Shape("empty_value", id))
      else if |item.value.s| > MAX_VALUE then Some(Shape("value_limit", id))
      else if item.confirmed != Bool(true) then Some(Shape("confirmation", id))
      else None
  }

  predicate SeenId(items: seq<Item>, n: nat, id: Js)
    requires n <= |items|
  {
    exists i :: 0 <= i < n && IdOf(items[i]) == id
  }

  /** The first problem of item i, given the items before it. */
  function ShapeAt(tests: Tests, items: seq<Item>, i: nat): Option<Rejection>
    requires i < |items|
  {
    if SeenId(items, i, IdOf(items[i])) then Some(Shape("duplicate_id", PublicId(tests, IdOf(items[i]))))
    else ItemShape(tests, items[i])
  }

  /** The first problem of the first bad item. */
  function Shapes(tests: Tests, items: seq<Item>, n: nat): (r: Option<Rejection>)
    requires n <= |items|
    ensures r.None? <==> forall i :: 0 <= i < n ==> ShapeAt(tests, items, i).None?
  {
    if n == 0 then None
    else
      var init := Shapes(tests, items, n - 1);
      if init.Some? then init else ShapeAt(tests, items, n - 1)
  }

  /** The shape loop, with its set of ids. */
  method CheckShapes(tests: Tests, items: seq<Item>) returns (problem: Option<Rejection>)
    ensures problem == Shapes(tests, items, |items|)
  {
    problem := None;
    var ids: set<Js> := {};
    var i := 0;
    while i < |items| && problem.None?
      invariant 0 <= i <= |items| && problem == Shapes(tests, items, i)
      invariant problem.None? ==> forall id :: id in ids <==> SeenId(items, i, id)
    {
      var id := IdOf(items[i]);
      if id in ids {
        problem := Some(Shape("duplicate_id", PublicId(tests, id)));
      } else {
        problem := ItemShape(tests, items[i]);
      }
      ids := ids + {id};
      i := i + 1;
    }
    if problem.Some? {
      ShapesStop(tests, items, i, |items|);
    }
  }

  lemma {:induction false} ShapesStop(tests: Tests, items: seq<Item>, i: nat, n: nat)
    requires i <= n <= |items| && Shapes(tests, items, i).Some?
    ensures Shapes(tests, items, n) == Shapes(tests, items, i)
  {
    if i < n {
      ShapesStop(tests, items, i, n - 1);
    }
  }

  function FirstWithId(fields: seq<Field>, id: string): (f: Option<Field>)
    ensures f.Some? ==> f.value in fields && f.value.id == id
    ensures f.None? ==> forall i :: 0 <= i < |fields| ==> fields[i].id != id
  {
    if fields == [] then None else if fields[0].id == id then Some(fields[0]) else FirstWithId(fields[1..], id)
  }

  /** `null` and a missing key both mean no classification. */
  function NoneIfMissing(key: Js): Js {
    if key.Undefined? then Null else key
  }

  function MismatchOf(field: Option<Field>, item: Item): Option<string>
    requires item.Item? && item.value.Str?
  {
    if field.None? then Some("missing_field")
    else
      var f := field.value;
      if f.manualOnly then Some("manual_only")
      else if !f.available then Some("unavailable")
      else if item.key != Str(f.key) then Some("key")
      else if item.title != Str(f.title) then Some("label")
      else if item.kind != Str(f.kind) then Some("kind")
      else if NoneIfMissing(item.evidenceKey) != NoneIfMissing(f.evidenceKey) then Some("evidence_key")
      else if |item.value.s| > f.maxLength then Some("max_length")
      else None
  }

  predicate Offers(options: seq<Choice>, value: Js, title: Js) {
    exists i :: 0 <= i < |options| && Str(options[i].value) == value && Str(options[i].text) == title
  }

  predicate Shaped(item: Item) {
    item.Item? && item.id.Str? && item.value.Str?
  }

  function ReviewItem(tests: Tests, fields: seq<Field>, item: Item): (r: Result<Field, Rejection>)
    requires Shaped(item)
  {
    var found := FirstWithId(fields, item.id.s);
    var mismatch := MismatchOf(found, item);
    if mismatch.Some? then
      Err(if tests.publicId(item.id.s) then Rejection("invalid_review", mismatch, Some(item.id.s))
          else Rejection("invalid_review", None, None))
    else
      var f := found.value;
      if f.kind == "select" && !Offers(f.options, item.value, item.optionLabel) then Err(Rejection("option_changed", None, None))
      else if f.kind == "combobox" && item.optionLabel != item.value then Err(Rejection("invalid_choice", None, None))
      else if f.kind == "date" && !tests.realDate(item.value.s) then Err(Rejection("invalid_date", None, None))
      else Ok(f)
  }

  datatype Reviewed = Reviewed(id: string, value: string, field: Field)

  function ReviewAll(tests: Tests, fields: seq<Field>, items: seq<Item>): (r: Result<seq<Reviewed>, Rejection>)
    requires forall i :: 0 <= i < |items| ==> Shaped(items[i])
  {
    if items == [] then Ok([])
    else
      var item := items[|items| - 1];
      match ReviewAll(tests, fields, items[..|items| - 1])
      case Err(e) => Err(e)
      case Ok(init) =>
        match ReviewItem(tests, fields, item)
        case Err(e) => Err(e)
        case Ok(f) => Ok(init + [Reviewed(item.id.s, item.value.s, f)])
  }

  predicate OngoingStudent(r: Reviewed) {
    r.field.studentCheckbox && r.value == "yes"
  }

  predicate EndDate(r: Reviewed) {
    r.field.evidenceKey == Str("education_end_month") || r.field.evidenceKey == Str("education_end_year")
  }

  function FirstOngoing(reviewed: seq<Reviewed>): (r: Option<Reviewed>)
    ensures r.None? <==> forall i :: 0 <= i < |reviewed| ==> !OngoingStudent(reviewed[i])
  {
    if reviewed == [] then None
    else if OngoingStudent(reviewed[0]) then Some(reviewed[0])
    else
      var rest := FirstOngoing(reviewed[1..]);
      assert forall i :: 1 <= i < |reviewed| ==> reviewed[i] == reviewed[1..][i - 1];
      rest
  }

  predicate SomeEndDate(reviewed: seq<Reviewed>) {
    exists i :: 0 <= i < |reviewed| && EndDate(reviewed[i])
  }

  function Students(reviewed: seq<Reviewed>, wanted: bool): seq<Reviewed> {
    if reviewed == [] then []
    else if reviewed[0].field.studentCheckbox == wanted then [reviewed[0]] + Students(reviewed[1..], wanted)
    else Students(reviewed[1..], wanted)
  }

  /** The stable sort that puts the student checkbox first. */
  function StudentFirst(reviewed: seq<Reviewed>): seq<Reviewed> {
    Students(reviewed, true) + Students(reviewed, false)
  }

  lemma ShapedItems(tests: Tests, items: seq<Item>)
    requires Shapes(tests, items, |items|).None?
    ensures forall i :: 0 <= i < |items| ==> Shaped(items[i])
  {
    forall i | 0 <= i < |items|
      ensures Shaped(items[i])
    {
      assert ShapeAt(tests, items, i).None?;
    }
  }

  function Ordered(reviewed: seq<Reviewed>): Result<seq<Reviewed>, Rejection> {
    var ongoing := FirstOngoing(reviewed);
    if ongoing.Some? && SomeEndDate(reviewed)
    then Err(Rejection("invalid_review", Some("incompatible_answers"), Some(ongoing.value.id)))
    else Ok(if ongoing.Some? then StudentFirst(reviewed) else reviewed)
  }

  function Preflight(tests: Tests, fields: seq<Field>, approved: Approved): Result<seq<Reviewed>, Rejection> {
    if approved.NotAnArray? then Err(Shape("answers_type", None))
    else if |approved.items| > MAX_ITEMS then Err(Shape("answers_count", None))
    else
      var items := approved.items;
      var problem := Shapes(tests, items, |items|);
      if problem.Some? then Err(problem.value)
      else
        ShapedItems(tests, items);
        match ReviewAll(tests, fields, items)
        case Err(e) => Err(e)
        case Ok(reviewed) => Ordered(reviewed)
  }

  /** The review loop. */
  method ReviewItems(tests: Tests, fields: seq<Field>, items: seq<Item>) returns (r: Result<seq<Reviewed>, Rejection>)
    requires forall i :: 0 <= i < |items| ==> Shaped(items[i])
    ensures r == ReviewAll(tests, fields, items)
  {
    hide ReviewItem;
    var reviewed: seq<Reviewed> := [];
    assert items[..|items|] == items;
    for i := 0 to |items|
      invariant ReviewAll(tests, fields, items[..i]) == Ok(reviewed)
    {
      assert items[..i + 1][..i] == items[..i];
      var one := ReviewItem(tests, fields, items[i]);
      if one.Err? {
        ReviewStops(tests, fields, items, i + 1, |items|);
        return Err(one.error);
      }
      reviewed := reviewed + [Reviewed(items[i].id.s, items[i].value.s, one.value)];
    }
    return Ok(reviewed);
  }

  /** The same preflight as the script runs it. It writes nothing. */
  method RunPreflight(tests: Tests, fields: seq<Field>, approved: Approved) returns (r: Result<seq<Reviewed>, Rejection>)
    ensures r == Preflight(tests, fields, approved)
  {
    if approved.NotAnArray? {
      return Err(Shape("answers_type", None));
    }
    if |approved.items| > MAX_ITEMS {
      return Err(Shape("answers_count", None));
    }
    var problem := CheckShapes(tests, approved.items);
    if problem.Some? {
      return Err(problem.value);
    }
    ShapedItems(tests, approved.items);
    var reviewed := ReviewItems(tests, fields, approved.items);
    if reviewed.Err? {
      return reviewed;
    }
    return Ordered(reviewed.value);
  }

  lemma {:induction false} ReviewStops(tests: Tests, fields: seq<Field>, items: seq<Item>, i: nat, n: nat)
    requires i <= n <= |items| && forall j :: 0 <= j < |items| ==> Shaped(items[j])
    requires ReviewAll(tests, fields, items[..i]).Err?
    ensures ReviewAll(tests, fields, items[..n]) == ReviewAll(tests, fields, items[..i])
  {
    if i < n {
      ReviewStops(tests, fields, items, i, n - 1);
      assert items[..n][..n - 1] == items[..n - 1];
    }
  }

  // ----- what a passed preflight means

  predicate ShapeMeets(tests: Tests, item: Item) {
    Shaped(item) && !tests.blank(item.value.s) && |item.value.s| <= MAX_VALUE && item.confirmed == Bool(true)
  }

  /** The item answers this field exactly as it was reviewed. */
  predicate Answers(tests: Tests, field: Field, item: Item)
    requires Shaped(item)
  {
    && field.id == item.id.s && Fits(field, item)
    && (field.kind == "select" ==> exists o :: o in field.options && item.value == Str(o.value) && item.optionLabel == Str(o.text))
    && (field.kind == "combobox" ==> item.optionLabel == item.value)
    && (field.kind == "date" ==> tests.realDate(item.value.s))
  }

  predicate UniqueIds(fields: seq<Field>) {
    forall i, j :: 0 <= i < j < |fields| ==> fields[i].id != fields[j].id
  }

  ghost predicate AnswersSome(tests: Tests, fields: seq<Field>, item: Item)
    requires Shaped(item)
  {
    exists k :: 0 <= k < |fields| && Answers(tests, fields[k], item)
  }

  /** The reviewed list pairs each item, in order, with the field it answers. */
  ghost predicate Pairs(tests: Tests, fields: seq<Field>, items: seq<Item>, reviewed: seq<Reviewed>) {
    |reviewed| == |items| && forall i :: 0 <= i < |items| ==> PairsAt(tests, fields, items[i], reviewed[i])
  }

  predicate PairsAt(tests: Tests, fields: seq<Field>, item: Item, r: Reviewed) {
    Shaped(item) && r.field in fields && Answers(tests, r.field, item) && r.id == item.id.s && r.value == item.value.s
  }

  lemma OffersIff(options: seq<Choice>, value: Js, title: Js)
    ensures Offers(options, value, title) <==> exists o :: o in options && value == Str(o.value) && title == Str(o.text)
  {
  }

  /** Which field a refusal of one item names: a mismatch names the item's own id if it is public and
      nothing otherwise; a choice or date that does not fit names nothing. */
  lemma ReviewProblem(tests: Tests, fields: seq<Field>, item: Item)
    requires Shaped(item) && ReviewItem(tests, fields, item).Err?
    ensures var e := ReviewItem(tests, fields, item).error;
      && (e.code == "invalid_review" ==> e.fieldId == if tests.publicId(item.id.s) then Some(item.id.s) else None)
      && (e.fieldId.Some? <==> e.mismatch.Some?) && (e.code != "invalid_review" ==> e.fieldId.None?)
      && (e.code == "invalid_review" <==> !exists f :: FirstWithId(fields, item.id.s) == Some(f) && Fits(f, item))
  {
    hide Offers, FirstWithId;
    var found := FirstWithId(fields, item.id.s);
    assert MismatchOf(found, item).None? <==> found.Some? && Fits(found.value, item);
  }

  /** The field is as the item was reviewed, whatever the choice or date says. */
  predicate Fits(field: Field, item: Item)
    requires Shaped(item)
  {
    && !field.manualOnly && field.available && item.key == Str(field.key) && item.title == Str(field.title) && item.kind == Str(field.kind)
    && (item.evidenceKey == field.evidenceKey || (item.evidenceKey in {Undefined, Null} && field.evidenceKey in {Undefined, Null}))
    && |item.value.s| <= field.maxLength
  }

  lemma ReviewItemIff(tests: Tests, fields: seq<Field>, item: Item)
    requires Shaped(item) && UniqueIds(fields)
    ensures ReviewItem(tests, fields, item).Ok? <==> AnswersSome(tests, fields, item)
    ensures ReviewItem(tests, fields, item).Ok? ==>
      PairsAt(tests, fields, item, Reviewed(item.id.s, item.value.s, ReviewItem(tests, fields, item).value))
  {
    var found := FirstWithId(fields, item.id.s);
    if found.Some? {
      OffersIff(found.value.options, item.value, item.optionLabel);
      hide Offers;
      var k :| 0 <= k < |fields| && fields[k] == found.value;
      if j :| 0 <= j < |fields| && Answers(tests, fields[j], item) {
        assert j == k;
      }
    }
  }

  lemma {:induction false} ReviewAllIff(tests: Tests, fields: seq<Field>, items: seq<Item>)
    requires UniqueIds(fields) && forall i :: 0 <= i < |items| ==> Shaped(items[i])
    ensures ReviewAll(tests, fields, items).Ok? <==> forall i :: 0 <= i < |items| ==> AnswersSome(tests, fields, items[i])
    ensures ReviewAll(tests, fields, items).Ok? ==> Pairs(tests, fields, items, ReviewAll(tests, fields, items).value)
  {
    hide AnswersSome, PairsAt, ReviewItem;
    if items != [] {
      var init, last := items[..|items| - 1], items[|items| - 1];
      ReviewAllIff(tests, fields, init);
      ReviewItemIff(tests, fields, last);
      assert forall i :: 0 <= i < |init| ==> init[i] == items[i];
    }
  }

  /** Distinct string ids. */
  predicate DistinctIds(items: seq<Item>) {
    forall i, j :: 0 <= i < j < |items| ==> IdOf(items[i]) != IdOf(items[j])
  }

  lemma ShapesIff(tests: Tests, items: seq<Item>)
    ensures Shapes(tests, items, |items|).None? <==>
      DistinctIds(items) && forall i :: 0 <= i < |items| ==> ShapeMeets(tests, items[i])
  {
    if Shapes(tests, items, |items|).None? {
      forall i | 0 <= i < |items|
        ensures ShapeMeets(tests, items[i]) && !SeenId(items, i, IdOf(items[i]))
      {
        assert ShapeAt(tests, items, i).None?;
      }
    }
  }

  /** The item answers the student checkbox with yes. */
  predicate AnswersStudent(tests: Tests, field: Field, item: Item) {
    Shaped(item) && Answers(tests, field, item) && field.studentCheckbox && item.value.s == "yes"
  }

  /** The item answers an education end date. */
  predicate AnswersEnd(tests: Tests, field: Field, item: Item) {
    Shaped(item) && Answers(tests, field, item) && field.evidenceKey in {Str("education_end_month"), Str("education_end_year")}
  }

  ghost predicate SomeStudent(tests: Tests, fields: seq<Field>, items: seq<Item>) {
    exists i, k :: 0 <= i < |items| && 0 <= k < |fields| && AnswersStudent(tests, fields[k], items[i])
  }

  ghost predicate SomeEnd(tests: Tests, fields: seq<Field>, items: seq<Item>) {
    exists i, k :: 0 <= i < |items| && 0 <= k < |fields| && AnswersEnd(tests, fields[k], items[i])
  }

  /** A fill begins exactly when there are at most sixty items with distinct ids, each confirmed,
      non-blank and short enough, each answering its field exactly as reviewed, and no ongoing
      student together with an education end date. */
  lemma PreflightIff(tests: Tests, fields: seq<Field>, items: seq<Item>)
    requires UniqueIds(fields)
    ensures Preflight(tests, fields, Items(items)).Ok? <==>
      && |items| <= MAX_ITEMS && DistinctIds(items)
      && (forall i :: 0 <= i < |items| ==> ShapeMeets(tests, items[i]) && AnswersSome(tests, fields, items[i]))
      && !(SomeStudent(tests, fields, items) && SomeEnd(tests, fields, items))
  {
    hide AnswersSome, PairsAt, ReviewItem, SomeStudent, SomeEnd, Pairs;
    ShapesIff(tests, items);
    if Shapes(tests, items, |items|).None? {
      ShapedItems(tests, items);
      ReviewAllIff(tests, fields, items);
      if ReviewAll(tests, fields, items).Ok? {
        ConflictIff(tests, fields, items, ReviewAll(tests, fields, items).value);
      }
    }
  }

  ghost predicate SomeOngoing(reviewed: seq<Reviewed>) {
    exists i :: 0 <= i < |reviewed| && OngoingStudent(reviewed[i])
  }

  lemma SameField(tests: Tests, fields: seq<Field>, item: Item, r: Reviewed, k: nat)
    requires UniqueIds(fields) && PairsAt(tests, fields, item, r) && k < |fields| && Answers(tests, fields[k], item)
    ensures fields[k] == r.field
  {
    hide Fits;
    var j :| 0 <= j < |fields| && fields[j] == r.field;
    assert j == k;
  }

  /** One reviewed answer, read off its item and the fields. */
  lemma PairMeans(tests: Tests, fields: seq<Field>, item: Item, r: Reviewed)
    requires UniqueIds(fields) && PairsAt(tests, fields, item, r)
    ensures OngoingStudent(r) <==> exists k :: 0 <= k < |fields| && AnswersStudent(tests, fields[k], item)
    ensures EndDate(r) <==> exists k :: 0 <= k < |fields| && AnswersEnd(tests, fields[k], item)
  {
    var j :| 0 <= j < |fields| && fields[j] == r.field;
    assert OngoingStudent(r) <==> AnswersStudent(tests, fields[j], item);
    assert EndDate(r) <==> AnswersEnd(tests, fields[j], item);
    if k :| 0 <= k < |fields| && AnswersStudent(tests, fields[k], item) {
      SameField(tests, fields, item, r, k);
    }
    if k :| 0 <= k < |fields| && AnswersEnd(tests, fields[k], item) {
      SameField(tests, fields, item, r, k);
    }
  }

  lemma ConflictIff(tests: Tests, fields: seq<Field>, items: seq<Item>, reviewed: seq<Reviewed>)
    requires UniqueIds(fields) && Pairs(tests, fields, items, reviewed)
    ensures SomeOngoing(reviewed) <==> SomeStudent(tests, fields, items)
    ensures SomeEndDate(reviewed) <==> SomeEnd(tests, fields, items)
  {
    hide PairsAt, UniqueIds, OngoingStudent, EndDate, AnswersStudent, AnswersEnd;
    forall i | 0 <= i < |items|
      ensures OngoingStudent(reviewed[i]) <==> exists k :: 0 <= k < |fields| && AnswersStudent(tests, fields[k], items[i])
      ensures EndDate(reviewed[i]) <==> exists k :: 0 <= k < |fields| && AnswersEnd(tests, fields[k], items[i])
    {
      PairMeans(tests, fields, items[i], reviewed[i]);
    }
  }

  /** What an order problem says, and which order is written: the student checkbox first if it is
      answered with yes, and otherwise the order of the items. */
  lemma OrderedIs(reviewed: seq<Reviewed>)
    ensures var r := Ordered(reviewed);
      && (r.Err? <==> SomeOngoing(reviewed) && SomeEndDate(reviewed))
      && (r.Err? ==> exists x :: IsFirstOngoing(reviewed, x) && r.error == Rejection("invalid_review", Some("incompatible_answers"), Some(x.id)))
      && (r.Ok? && !SomeOngoing(reviewed) ==> r.value == reviewed)
      && (r.Ok? && SomeOngoing(reviewed) ==>
            exists students, others :: r.value == students + others && SplitsStudents(reviewed, students, others))
  {
    FirstOngoingIs(reviewed);
    StudentsAre(reviewed, true);
    StudentsAre(reviewed, false);
    StudentsMultiset(reviewed);
    StudentsInOrder(reviewed, true);
    StudentsInOrder(reviewed, false);
    hide Students, PartOf, FirstOngoing;
    assert SplitsStudents(reviewed, Students(reviewed, true), Students(reviewed, false));
  }

  /** The student checkboxes and the others, each in their order and nothing lost. */
  ghost predicate SplitsStudents(reviewed: seq<Reviewed>, students: seq<Reviewed>, others: seq<Reviewed>) {
    && multiset(students) + multiset(others) == multiset(reviewed) && PartOf(students, reviewed) && PartOf(others, reviewed)
    && (forall x :: x in students ==> x.field.studentCheckbox) && (forall x :: x in others ==> !x.field.studentCheckbox)
  }

  /** The first answer that calls the applicant a student. */
  ghost predicate IsFirstOngoing(reviewed: seq<Reviewed>, x: Reviewed) {
    exists i :: 0 <= i < |reviewed| && reviewed[i] == x && OngoingAt(reviewed, i) && forall j :: 0 <= j < i ==> !OngoingAt(reviewed, j)
  }

  predicate OngoingAt(reviewed: seq<Reviewed>, i: nat)
    requires i < |reviewed|
  {
    reviewed[i].field.studentCheckbox && reviewed[i].value == "yes"
  }

  lemma {:induction false} FirstOngoingIs(reviewed: seq<Reviewed>)
    ensures FirstOngoing(reviewed).Some? <==> SomeOngoing(reviewed)
    ensures FirstOngoing(reviewed).Some? ==> IsFirstOngoing(reviewed, FirstOngoing(reviewed).value)
  {
    if reviewed != [] {
      var rest := reviewed[1..];
      FirstOngoingIs(rest);
      if OngoingStudent(reviewed[0]) {
        assert OngoingAt(reviewed, 0);
      } else if FirstOngoing(rest).Some? {
        var x := FirstOngoing(rest).value;
        var i :| 0 <= i < |rest| && rest[i] == x && OngoingAt(rest, i) && forall j :: 0 <= j < i ==> !OngoingAt(rest, j);
        forall j | 0 <= j < i + 1
          ensures !OngoingAt(reviewed, j)
        {
          assert j > 0 ==> OngoingAt(reviewed, j) == OngoingAt(rest, j - 1);
        }
        assert reviewed[i + 1] == rest[i] && OngoingAt(reviewed, i + 1);
      }
    }
  }

  lemma {:induction false} StudentsInOrder(reviewed: seq<Reviewed>, wanted: bool)
    ensures PartOf(Students(reviewed, wanted), reviewed)
  {
    if reviewed != [] {
      StudentsInOrder(reviewed[1..], wanted);
    }
  }

  /** What a shape problem says: it is that of the first bad item, and it names that item's id if it
      is a public one. */
  lemma {:induction false} ShapesName(tests: Tests, items: seq<Item>, n: nat)
    requires n <= |items| && Shapes(tests, items, n).Some?
    ensures exists i :: 0 <= i < n && FirstBad(tests, items, i, Shapes(tests, items, n).value)
  {
    hide ShapeAt, NamesItem;
    if Shapes(tests, items, n - 1).Some? {
      ShapesName(tests, items, n - 1);
    } else {
      ShapeNames(tests, items, n - 1);
      assert FirstBad(tests, items, n - 1, Shapes(tests, items, n).value);
    }
  }

  /** Item i has this problem, and no item before it has one. */
  predicate FirstBad(tests: Tests, items: seq<Item>, i: nat, e: Rejection)
    requires i < |items|
  {
    ShapeAt(tests, items, i) == Some(e) && NamesItem(tests, items[i], e) && forall j :: 0 <= j < i ==> ShapeAt(tests, items, j).None?
  }

  predicate NamesItem(tests: Tests, item: Item, e: Rejection) {
    && e.code == "invalid_review" && e.mismatch.Some?
    && e.fieldId == (match IdOf(item) case Str(s) => if tests.publicId(s) then Some(s) else None case _ => None)
  }

  lemma ShapeNames(tests: Tests, items: seq<Item>, i: nat)
    requires i < |items| && ShapeAt(tests, items, i).Some?
    ensures NamesItem(tests, items[i], ShapeAt(tests, items, i).value)
  {
    hide SeenId;
  }

  lemma {:induction false} StudentsAre(reviewed: seq<Reviewed>, wanted: bool)
    ensures forall r :: r in Students(reviewed, wanted) ==> r.field.studentCheckbox == wanted
  {
    if reviewed != [] {
      StudentsAre(reviewed[1..], wanted);
    }
  }

  /** The sort moves the student checkbox to the front and loses nothing. */
  lemma {:induction false} StudentsMultiset(reviewed: seq<Reviewed>)
    ensures multiset(Students(reviewed, true)) + multiset(Students(reviewed, false)) == multiset(reviewed)
  {
    if reviewed != [] {
      var rest := reviewed[1..];
      StudentsMultiset(rest);
      assert reviewed == [reviewed[0]] + rest;
      if reviewed[0].field.studentCheckbox {
        assert Students(reviewed, false) == Students(rest, false);
      } else {
        assert Students(reviewed, true) == Students(rest, true);
      }
    }
  }

  function IdsOf(reviewed: seq<Reviewed>): (r: seq<string>)
    ensures |r| == |reviewed| && forall i :: 0 <= i < |r| ==> r[i] == reviewed[i].id
  {
    seq(|reviewed|, i requires 0 <= i < |reviewed| => reviewed[i].id)
  }
}
