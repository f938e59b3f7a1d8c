/** One job of a batch through the last stages, and the batch's final order. */
module Batches {
  import opened Text
  import opened Wrappers
  import opened Citations
  import opened Evidence
  import opened Assessments
  import opened EvidenceTheorems

  // ----- rows of one job

  function PrioritizedRows(rules: Rules, profile: Profile, rows: seq<Row>): (r: seq<Row>)
    ensures |r| == |rows| && forall i :: 0 <= i < |r| ==> r[i] == Prioritized(rules, profile, rows[i], false, false)
  {
    seq(|rows|, i requires 0 <= i < |rows| => Prioritized(rules, profile, rows[i], false, false))
  }

  function CorrectedRows(rules: Rules, rows: seq<Row>): (r: seq<Row>)
    ensures |r| == |rows| && forall i :: 0 <= i < |r| ==> r[i] == Corrected(rules, rows[i])
  {
    seq(|rows|, i requires 0 <= i < |rows| => Corrected(rules, rows[i]))
  }

  // ----- strengths through both checks

  /** `validate_career_fit` runs before and after prioritizing; the second run sees the lowered
      rows. */
  function FinishStrengths(rules: Rules, career: CareerRules, profile: Profile, item: Item): Result<seq<Strength>, EvidenceError> {
    match ReviewStrengths(career, item.rows, item.related, item.strengths)
    case Err(e) => Err(e)
    case Ok(first) => ReviewStrengths(career, PrioritizedRows(rules, profile, item.rows), item.related, first)
  }

  function FinalRows(rules: Rules, profile: Profile, item: Item): seq<Row> {
    CorrectedRows(rules, PrioritizedRows(rules, profile, item.rows))
  }

  lemma PrioritizedKeepsChecks(rules: Rules, profile: Profile, row: Row)
    ensures var p := Prioritized(rules, profile, row, false, false);
      p.checks == row.checks && p.category == row.category && p.requirement == row.requirement
      && (p.outcome == Supported ==> row.outcome == Supported && p.field == row.field && p.quote == row.quote)
  {
    PrioritizedOnlyLowers(rules, profile, row, false);
    hide Prioritized, ConditionText;
  }

  /** Prioritizing changes whether a strength is backed, never whether it is well formed. */
  lemma PrioritizingKeepsShape(rules: Rules, profile: Profile, rows: seq<Row>, point: Strength)
    ensures WellFormed(PrioritizedRows(rules, profile, rows), point) <==> WellFormed(rows, point)
  {
    hide Prioritized;
    if point.requirement < |rows| {
      PrioritizedKeepsChecks(rules, profile, rows[point.requirement]);
    }
  }

  /** What a row offers as backing: nothing else of it matters to strengths. */
  predicate SameOffer(a: Row, b: Row) {
    a.outcome == b.outcome && a.field == b.field && a.quote == b.quote && a.category == b.category
    && a.requirement == b.requirement && a.checks == b.checks
  }

  lemma SameOfferBacks(rows: seq<Row>, others: seq<Row>, related: seq<Related>, point: Strength, b: Backing)
    requires |rows| == |others| && forall i :: 0 <= i < |rows| ==> SameOffer(rows[i], others[i])
    ensures Backs(rows, related, point, b) <==> Backs(others, related, point, b)
  {
    assert point.requirement < |rows| ==> SameOffer(rows[point.requirement], others[point.requirement]);
  }

  /** Re-explaining a row changes no strength's backing. */
  lemma BackingIgnoresReasons(rules: Rules, rows: seq<Row>, related: seq<Related>, point: Strength, b: Backing)
    ensures Backs(CorrectedRows(rules, rows), related, point, b) <==> Backs(rows, related, point, b)
  {
    forall i | 0 <= i < |rows|
      ensures SameOffer(CorrectedRows(rules, rows)[i], rows[i])
    {
      CorrectedKeeps(rules, rows[i]);
    }
    hide Corrected, SameOffer, Backs;
    SameOfferBacks(CorrectedRows(rules, rows), rows, related, point, b);
  }

  /** Going from one list of rows to another, a point loses all its backing or none of it. */
  ghost predicate AllOrNothing(before: seq<Row>, after: seq<Row>, related: seq<Related>) {
    forall point, b, c :: Backs(after, related, point, c) ==> (Backs(before, related, point, b) <==> Backs(after, related, point, b))
  }

  lemma FinalBacking(rules: Rules, profile: Profile, item: Item)
    ensures AllOrNothing(item.rows, FinalRows(rules, profile, item), item.related)
    ensures AllOrNothing(item.rows, PrioritizedRows(rules, profile, item.rows), item.related)
  {
    var rows := PrioritizedRows(rules, profile, item.rows);
    forall point, b, c | Backs(rows, item.related, point, c)
      ensures Backs(item.rows, item.related, point, b) <==> Backs(rows, item.related, point, b)
    {
      PrioritizedKeepsChecks(rules, profile, item.rows[point.requirement]);
      hide Prioritized;
    }
    hide Backs, Prioritized, PrioritizedRows, CorrectedRows;
    forall point, b
      ensures Backs(FinalRows(rules, profile, item), item.related, point, b) <==> Backs(rows, item.related, point, b)
    {
      BackingIgnoresReasons(rules, rows, item.related, point, b);
    }
  }

  lemma TextDoesNotBack(rows: seq<Row>, related: seq<Related>, point: Strength, text: string, b: Backing)
    ensures Backs(rows, related, point.(text := text), b) <==> Backs(rows, related, point, b)
    ensures FirstBacking(rows, related, point.(text := text), b) <==> FirstBacking(rows, related, point, b)
  {
  }

  lemma FirstStays(before: seq<Row>, after: seq<Row>, related: seq<Related>, point: Strength, b: Backing)
    requires AllOrNothing(before, after, related) && HasBacking(after, related, point) && FirstBacking(before, related, point, b)
    ensures FirstBacking(after, related, point, b)
  {
    hide Backs;
  }

  /** Keeping a point twice is keeping it once by the later rows. */
  lemma KeptTwice(career: CareerRules, before: seq<Row>, after: seq<Row>, related: seq<Related>, point: Strength, first: Strength, kept: Strength)
    requires AllOrNothing(before, after, related)
    requires KeptFrom(career, before, related, point, first) && HasBacking(after, related, first) && KeptFrom(career, after, related, first, kept)
    ensures HasBacking(after, related, point) && KeptFrom(career, after, related, point, kept)
  {
    hide Backs, FirstBacking;
    var c :| Backs(after, related, first, c);
    forall b
      ensures Backs(after, related, first, b) <==> Backs(after, related, point, b)
      ensures FirstBacking(after, related, first, b) <==> FirstBacking(after, related, point, b)
      ensures Backs(before, related, point, b) <==> Backs(after, related, point, b)
    {
      TextDoesNotBack(after, related, point, first.text, b);
      TextDoesNotBack(after, related, point, first.text, c);
    }
    if !SafelyBacked(career, before, related, point) {
      var b :| FirstBacking(before, related, point, b) && first.text == career.fallback(b);
      FirstStays(before, after, related, point, b);
    }
  }

  lemma LostStaysLost(before: seq<Row>, after: seq<Row>, related: seq<Related>, point: Strength)
    requires AllOrNothing(before, after, related) && !HasBacking(before, related, point)
    ensures !HasBacking(after, related, point)
  {
    hide Backs;
    forall c
      ensures !Backs(after, related, point, c)
    {
      assert !Backs(before, related, point, c);
    }
  }

  /** Running the loop twice is running it once on the later rows. */
  lemma {:induction false} FollowsTwice(career: CareerRules, before: seq<Row>, after: seq<Row>, related: seq<Related>, points: seq<Strength>, first: seq<Strength>, kept: seq<Strength>)
    requires AllOrNothing(before, after, related)
    requires Follows(career, before, related, points, first) && Follows(career, after, related, first, kept)
    ensures Follows(career, after, related, points, kept)
  {
    hide AllOrNothing, HasBacking, KeptFrom;
    if points != [] {
      var init, last := points[..|points| - 1], points[|points| - 1];
      if !HasBacking(before, related, last) {
        LostStaysLost(before, after, related, last);
        FollowsTwice(career, before, after, related, init, first, kept);
      } else {
        var f, rest := first[|first| - 1], first[..|first| - 1];
        KeptKeepsBacking(career, before, after, related, last, f);
        if HasBacking(after, related, f) {
          FollowsTwice(career, before, after, related, init, rest, kept[..|kept| - 1]);
          KeptTwice(career, before, after, related, last, f, kept[|kept| - 1]);
        } else {
          FollowsTwice(career, before, after, related, init, rest, kept);
        }
      }
    }
  }

  lemma KeptKeepsBacking(career: CareerRules, before: seq<Row>, after: seq<Row>, related: seq<Related>, point: Strength, kept: Strength)
    requires KeptFrom(career, before, related, point, kept)
    ensures HasBacking(after, related, kept) <==> HasBacking(after, related, point)
  {
    forall b
      ensures Backs(after, related, kept, b) <==> Backs(after, related, point, b)
    {
      TextDoesNotBack(after, related, point, kept.text, b);
    }
    hide Backs, FirstBacking;
  }

  lemma {:induction false} FollowsShape(career: CareerRules, rows: seq<Row>, others: seq<Row>, related: seq<Related>, points: seq<Strength>, kept: seq<Strength>)
    requires Follows(career, rows, related, points, kept) && forall p :: p in points ==> WellFormed(others, p)
    ensures forall p :: p in kept ==> WellFormed(others, p)
  {
    hide HasBacking, SafelyBacked, FirstBacking;
    if points != [] {
      var init, last := points[..|points| - 1], points[|points| - 1];
      assert forall p :: p in init ==> p in points;
      if HasBacking(rows, related, last) {
        FollowsShape(career, rows, others, related, init, kept[..|kept| - 1]);
        assert last in points;
        assert WellFormed(others, kept[|kept| - 1]) <==> WellFormed(others, last);
        assert kept == kept[..|kept| - 1] + [kept[|kept| - 1]];
      } else {
        FollowsShape(career, rows, others, related, init, kept);
      }
    }
  }

  /** The second strength check never rejects what the first accepted. Together they keep exactly the
      points that the rows finally shown still back, in order, each worded as it should be. */
  lemma FinalStrengthsAreSourced(rules: Rules, career: CareerRules, profile: Profile, item: Item)
    ensures FinishStrengths(rules, career, profile, item).Ok? <==>
      forall i :: 0 <= i < |item.strengths| ==> WellFormed(item.rows, item.strengths[i])
    ensures FinishStrengths(rules, career, profile, item).Ok? ==>
      Follows(career, FinalRows(rules, profile, item), item.related, item.strengths, FinishStrengths(rules, career, profile, item).value)
  {
    var rows := PrioritizedRows(rules, profile, item.rows);
    ReviewIsExact(career, item.rows, item.related, item.strengths);
    if ReviewStrengths(career, item.rows, item.related, item.strengths).Ok? {
      var first := ReviewStrengths(career, item.rows, item.related, item.strengths).value;
      forall p | p in item.strengths
        ensures WellFormed(rows, p)
      {
        PrioritizingKeepsShape(rules, profile, item.rows, p);
      }
      hide ReviewStrengths, PrioritizedRows, Follows, WellFormed, AllOrNothing, FinalRows;
      FollowsShape(career, item.rows, rows, item.related, item.strengths, first);
      ReviewIsExact(career, rows, item.related, first);
      var kept := ReviewStrengths(career, rows, item.related, first).value;
      FinalBacking(rules, profile, item);
      FollowsTwice(career, item.rows, rows, item.related, item.strengths, first, kept);
      FollowsIgnoresReasons(rules, career, profile, item, item.strengths, kept);
    }
  }

  lemma {:induction false} FollowsIgnoresReasons(rules: Rules, career: CareerRules, profile: Profile, item: Item, points: seq<Strength>, kept: seq<Strength>)
    requires Follows(career, PrioritizedRows(rules, profile, item.rows), item.related, points, kept)
    ensures Follows(career, FinalRows(rules, profile, item), item.related, points, kept)
  {
    hide PrioritizedRows, CorrectedRows;
    if points != [] {
      var rows, finals := PrioritizedRows(rules, profile, item.rows), FinalRows(rules, profile, item);
      var init, last := points[..|points| - 1], points[|points| - 1];
      forall b
        ensures Backs(finals, item.related, last, b) <==> Backs(rows, item.related, last, b)
      {
        BackingIgnoresReasons(rules, rows, item.related, last, b);
      }
      hide Backs;
      assert HasBacking(finals, item.related, last) <==> HasBacking(rows, item.related, last);
      if HasBacking(rows, item.related, last) {
        FollowsIgnoresReasons(rules, career, profile, item, init, kept[..|kept| - 1]);
      } else {
        FollowsIgnoresReasons(rules, career, profile, item, init, kept);
      }
    }
  }

  // ----- which jobs are flagged

  predicate HardGap(career: CareerRules, row: Row) {
    row.outcome == Gap && row.category in {EducationRow, ConstraintRow} && !career.preferred(row.jdQuote)
  }

  /** The notes one row adds: a date conflict, or else a hard gap. */
  function RowNotes(rules: Rules, career: CareerRules, profile: Profile, row: Row): seq<string> {
    var timing := rules.timing(row.category, row.jdQuote, TextOf(profile.education));
    if timing.Some? then [timing.value.0]
    else if HardGap(career, Prioritized(rules, profile, row, false, false))
    then ["Explicit qualification conflict requiring review: " + Cut(row.requirement, 300)] else []
  }

  function Notes(rules: Rules, career: CareerRules, profile: Profile, rows: seq<Row>): seq<string> {
    if rows == [] then [] else Notes(rules, career, profile, rows[..|rows| - 1]) + RowNotes(rules, career, profile, rows[|rows| - 1])
  }

  /** What the reader is finally shown of a row. */
  function FinalRow(rules: Rules, profile: Profile, row: Row): Row {
    Corrected(rules, Prioritized(rules, profile, row, false, false))
  }

  /** A date discrepancy, or an education or availability gap that the employer did not call
      optional, on a row as the reader is finally shown it. */
  predicate Flags(rules: Rules, career: CareerRules, profile: Profile, final: Row) {
    rules.timing(final.category, final.jdQuote, TextOf(profile.education)).Some? || HardGap(career, final)
  }

  predicate SomeFlags(rules: Rules, career: CareerRules, profile: Profile, finals: seq<Row>) {
    exists i :: 0 <= i < |finals| && Flags(rules, career, profile, finals[i])
  }

  lemma RowNotesIff(rules: Rules, career: CareerRules, profile: Profile, row: Row)
    ensures RowNotes(rules, career, profile, row) != [] <==> Flags(rules, career, profile, FinalRow(rules, profile, row))
  {
    PrioritizedKeepsCitation(rules, profile, row);
    hide Prioritized;
    CorrectedKeeps(rules, Prioritized(rules, profile, row, false, false));
    hide Corrected;
  }

  lemma PrioritizedKeepsCitation(rules: Rules, profile: Profile, row: Row)
    ensures var p := Prioritized(rules, profile, row, false, false); p.category == row.category && p.jdQuote == row.jdQuote && p.requirement == row.requirement
  {
  }

  /** The loop over a job's rows leaves a note exactly when one of its final rows calls for it. */
  lemma {:induction false} FlaggedIff(rules: Rules, career: CareerRules, profile: Profile, rows: seq<Row>)
    ensures Notes(rules, career, profile, rows) != [] <==>
      SomeFlags(rules, career, profile, CorrectedRows(rules, PrioritizedRows(rules, profile, rows)))
  {
    hide RowNotes, Flags, FinalRow;
    if rows != [] {
      var init, last := rows[..|rows| - 1], |rows| - 1;
      FlaggedIff(rules, career, profile, init);
      RowNotesIff(rules, career, profile, rows[last]);
      var before := CorrectedRows(rules, PrioritizedRows(rules, profile, init));
      var finals := CorrectedRows(rules, PrioritizedRows(rules, profile, rows));
      assert finals == before + [FinalRow(rules, profile, rows[last])] by {
        FinalsAppend(rules, profile, rows);
      }
      SomeFlagsAppend(rules, career, profile, before, FinalRow(rules, profile, rows[last]));
    }
  }

  lemma FinalsAppend(rules: Rules, profile: Profile, rows: seq<Row>)
    requires rows != []
    ensures CorrectedRows(rules, PrioritizedRows(rules, profile, rows)) ==
      CorrectedRows(rules, PrioritizedRows(rules, profile, rows[..|rows| - 1])) + [FinalRow(rules, profile, rows[|rows| - 1])]
  {
    hide Prioritized, Corrected;
  }

  lemma SomeFlagsAppend(rules: Rules, career: CareerRules, profile: Profile, finals: seq<Row>, last: Row)
    ensures SomeFlags(rules, career, profile, finals + [last]) <==>
      SomeFlags(rules, career, profile, finals) || Flags(rules, career, profile, last)
  {
    hide Flags;
    var longer := finals + [last];
    assert longer[|finals|] == last;
    if i :| 0 <= i < |finals| && Flags(rules, career, profile, finals[i]) {
      assert Flags(rules, career, profile, longer[i]);
    }
  }

  /** The note that a row as finally shown leaves: the words of its date conflict, else those of its
      hard gap with the first 300 characters of the requirement. */
  predicate LeavesNote(rules: Rules, career: CareerRules, profile: Profile, final: Row, note: string) {
    match rules.timing(final.category, final.jdQuote, TextOf(profile.education))
    case Some(conflict) => note == conflict.0
    case None =>
      && final.outcome == Gap && (final.category == EducationRow || final.category == ConstraintRow)
      && !career.preferred(final.jdQuote)
      && note == "Explicit qualification conflict requiring review: "
                 + if |final.requirement| <= 300 then final.requirement else final.requirement[..300]
  }

  lemma RowNotesMeaning(rules: Rules, career: CareerRules, profile: Profile, row: Row, note: string)
    ensures note in RowNotes(rules, career, profile, row) <==> LeavesNote(rules, career, profile, FinalRow(rules, profile, row), note)
  {
    var p := Prioritized(rules, profile, row, false, false);
    PrioritizedKeepsCitation(rules, profile, row);
    CorrectedKeeps(rules, p);
    hide Prioritized, Corrected;
  }

  /** The loop over a job's rows leaves exactly the notes that its final rows call for. */
  lemma {:induction false} NotesMeaning(rules: Rules, career: CareerRules, profile: Profile, rows: seq<Row>, note: string)
    ensures note in Notes(rules, career, profile, rows) <==>
      exists i :: 0 <= i < |rows| && LeavesNote(rules, career, profile, FinalRow(rules, profile, rows[i]), note)
  {
    hide RowNotes, LeavesNote, FinalRow;
    if rows != [] {
      var init, last := rows[..|rows| - 1], |rows| - 1;
      NotesMeaning(rules, career, profile, init, note);
      RowNotesMeaning(rules, career, profile, rows[last], note);
      if i :| 0 <= i < |init| && LeavesNote(rules, career, profile, FinalRow(rules, profile, init[i]), note) {
        assert LeavesNote(rules, career, profile, FinalRow(rules, profile, rows[i]), note);
      }
    }
  }

  /** The warning loop: unseen notes go to the front, and twenty warnings are kept. */
  function AddNotes(warnings: seq<string>, notes: seq<string>): (r: seq<string>)
    decreases notes
  {
    if notes == [] then warnings
    else if notes[0] in warnings then AddNotes(warnings, notes[1..])
    else
      var longer := [notes[0]] + warnings;
      AddNotes(if |longer| > 20 then longer[..20] else longer, notes[1..])
  }

  predicate NoRepeats(texts: seq<string>) {
    forall i, j :: 0 <= i < j < |texts| ==> texts[i] != texts[j]
  }

  /** `first` occurs in the list, and `second` does not occur before it. */
  ghost predicate Precedes(texts: seq<string>, first: string, second: string) {
    exists k :: 0 <= k < |texts| && texts[k] == first && second !in texts[..k + 1]
  }

  /** The kept texts stand in the order in which they first occur. */
  ghost predicate FirstsInOrder(texts: seq<string>, kept: seq<string>) {
    forall i, j :: 0 <= i < j < |kept| ==> Precedes(texts, kept[i], kept[j])
  }

  /** The notes that are not listed yet. */
  function Unlisted(warnings: seq<string>, notes: seq<string>): set<string> {
    set t | t in notes && t !in warnings
  }

  lemma UnlistedNext(warnings: seq<string>, notes: seq<string>)
    requires notes != []
    ensures notes[0] in warnings ==> Unlisted(warnings, notes[1..]) == Unlisted(warnings, notes)
    ensures notes[0] !in warnings ==>
      notes[0] in Unlisted(warnings, notes) && Unlisted([notes[0]] + warnings, notes[1..]) == Unlisted(warnings, notes) - {notes[0]}
  {
    assert notes == [notes[0]] + notes[1..];
  }

  /** While everything fits in twenty warnings, the notes that were not listed yet stand in front, the
      newest first and each once, and no warning is lost. */
  lemma {:induction false} AddNotesMeaning(warnings: seq<string>, notes: seq<string>) returns (front: seq<string>)
    requires |warnings| + |Unlisted(warnings, notes)| <= 20
    ensures AddNotes(warnings, notes) == front + warnings
    ensures NoRepeats(front) && forall t :: t in front <==> t in notes && t !in warnings
    ensures forall i, j :: 0 <= i < j < |front| ==> Precedes(notes, front[j], front[i])
    decreases notes
  {
    front := [];
    if notes != [] {
      var note, rest := notes[0], notes[1..];
      UnlistedNext(warnings, notes);
      hide Unlisted;
      if note in warnings {
        front := AddNotesMeaning(warnings, rest);
      } else {
        var later := AddNotesMeaning([note] + warnings, rest);
        front := later + [note];
        assert later + ([note] + warnings) == front + warnings;
        assert notes[..1] == [note];
        forall i | 0 <= i < |later|
          ensures Precedes(notes, note, later[i])
        {
          assert later[i] in later;
          assert later[i] !in notes[..0 + 1];
        }
      }
      forall i, j | 0 <= i < j < |front| && front[j] != note
        ensures Precedes(notes, front[j], front[i])
      {
        var k :| 0 <= k < |rest| && rest[k] == front[j] && front[i] !in rest[..k + 1];
        assert notes[k + 1] == front[j] && notes[..k + 2] == [note] + rest[..k + 1];
        assert front[i] !in notes[..(k + 1) + 1];
      }
    }
  }

  /** The list keeps every warning in its place and shows every note. */
  ghost predicate NothingLost(warnings: seq<string>, notes: seq<string>) {
    exists front :: AddNotes(warnings, notes) == front + warnings && forall t :: t in notes ==> t in front + warnings
  }

  /** Exactly when that is so: the warnings and the notes not yet listed are at most twenty. */
  lemma NothingLostIff(warnings: seq<string>, notes: seq<string>)
    requires |warnings| <= 20
    ensures NothingLost(warnings, notes) <==> |warnings| + |Unlisted(warnings, notes)| <= 20
  {
    if |warnings| + |Unlisted(warnings, notes)| <= 20 {
      var front := AddNotesMeaning(warnings, notes);
      assert NothingLost(warnings, notes);
    }
    if front :| AddNotes(warnings, notes) == front + warnings && forall t :: t in notes ==> t in front + warnings {
      AddNotesBounded(warnings, notes);
      var places := set i | 0 <= i < |front| :: front[i];
      SetOfList(front);
      assert Unlisted(warnings, notes) <= places;
      assert places == Unlisted(warnings, notes) + (places - Unlisted(warnings, notes));
    }
  }

  lemma {:induction false} SetOfList(texts: seq<string>)
    ensures |set i | 0 <= i < |texts| :: texts[i]| <= |texts|
  {
    var all := set i | 0 <= i < |texts| :: texts[i];
    if texts != [] {
      var n := |texts| - 1;
      var before := set i | 0 <= i < n :: texts[..n][i];
      SetOfList(texts[..n]);
      assert all == before + {texts[n]};
    }
  }

  /** A conflict that the model had listed in the twentieth place disappears when another one is noted
      after it. */
  lemma ListedNoteIsLost(warnings: seq<string>, note: string, other: string)
    requires |warnings| == 20 && warnings[19] == note && note !in warnings[..19] && other !in warnings
    ensures note in [note, other] && note !in AddNotes(warnings, [note, other])
  {
    assert [note, other][1..] == [other] && [other][1..] == [];
    var longer := [other] + warnings;
    assert AddNotes(warnings, [note, other]) == AddNotes(warnings, [other]) == AddNotes(longer[..20], []);
    assert longer[..20] == [other] + warnings[..19];
  }

  /** Beyond that the list stays within twenty, holds nothing new but notes, and still shows the last
      note. */
  lemma {:induction false} AddNotesBounded(warnings: seq<string>, notes: seq<string>)
    requires |warnings| <= 20
    ensures var r := AddNotes(warnings, notes);
      && |r| <= 20 && (forall t :: t in r ==> t in warnings || t in notes)
      && (notes != [] ==> notes[|notes| - 1] in r)
    decreases notes
  {
    if notes != [] {
      if notes[0] in warnings {
        AddNotesBounded(warnings, notes[1..]);
      } else {
        var longer := [notes[0]] + warnings;
        AddNotesBounded(if |longer| > 20 then longer[..20] else longer, notes[1..]);
      }
    }
  }

  // ----- reading a batch back: warnings after gap correction

  function RemoveRepeats(texts: seq<string>): seq<string> {
    if texts == [] then []
    else
      var init := RemoveRepeats(texts[..|texts| - 1]);
      if texts[|texts| - 1] in init then init else init + [texts[|texts| - 1]]
  }

  lemma {:induction false} RemoveRepeatsMeaning(texts: seq<string>)
    ensures NoRepeats(RemoveRepeats(texts)) && forall t :: t in RemoveRepeats(texts) <==> t in texts
    ensures FirstsInOrder(texts, RemoveRepeats(texts))
  {
    if texts != [] {
      var n := |texts| - 1;
      var init, r := RemoveRepeats(texts[..n]), RemoveRepeats(texts);
      RemoveRepeatsMeaning(texts[..n]);
      assert texts == texts[..n] + [texts[n]];
      assert FirstsInOrder(texts[..n], init);
      forall i, j | 0 <= i < j < |r|
        ensures Precedes(texts, r[i], r[j])
      {
        assert r[i] == init[i];
        if j < |init| {
          assert r[j] == init[j] && Precedes(texts[..n], init[i], init[j]);
          var k :| 0 <= k < n && texts[..n][k] == init[i] && init[j] !in texts[..n][..k + 1];
          assert texts[..n][..k + 1] == texts[..k + 1];
        } else {
          assert init[i] in init;
          var k :| 0 <= k < n && texts[..n][k] == init[i];
          assert texts[..k + 1] == texts[..n][..k + 1];
        }
      }
    }
  }

  lemma {:induction false} RemoveRepeatsFixed(texts: seq<string>)
    requires NoRepeats(texts)
    ensures RemoveRepeats(texts) == texts
  {
    if texts != [] {
      RemoveRepeatsFixed(texts[..|texts| - 1]);
    }
  }

  /** Rows whose re-explanation concerns saved availability. */
  predicate CorrectedAvailability(row: Row) {
    row.outcome == Unknown && Marked(row.reason) && row.category == ConstraintRow && row.field == Some(Availability)
  }

  function FirstAvailability(rules: Rules, rows: seq<Row>): Option<string> {
    if rows == [] then None
    else if CorrectedAvailability(rows[0]) then Some(UnverifiedReason(rules, rows[0]))
    else FirstAvailability(rules, rows[1..])
  }

  predicate HasGap(rows: seq<Row>) {
    exists i :: 0 <= i < |rows| && rows[i].outcome == Gap
  }

  function Replaced(career: CareerRules, warning: string, reason: string): string {
    if !(CORRECTION_PREFIX <= warning) && career.availabilityConflict(warning) then reason else warning
  }

  function ReplacedAll(career: CareerRules, warnings: seq<string>, reason: string): (r: seq<string>)
    ensures |r| == |warnings| && forall i :: 0 <= i < |r| ==> r[i] == Replaced(career, warnings[i], reason)
  {
    seq(|warnings|, i requires 0 <= i < |warnings| => Replaced(career, warnings[i], reason))
  }

  /** `correct_unverified_gaps` on one job: rows re-explained, and a stale availability conflict
      replaced in the warnings once no gap is left. */
  function CorrectItem(rules: Rules, career: CareerRules, rows: seq<Row>, warnings: seq<string>): (seq<Row>, seq<string>) {
    var corrected := CorrectedRows(rules, rows);
    var reason := FirstAvailability(rules, rows);
    (corrected, if reason.Some? && !HasGap(corrected) then RemoveRepeats(ReplacedAll(career, warnings, reason.value)) else warnings)
  }

  /** The warning loop as it runs. */
  method CorrectWarnings(career: CareerRules, warnings: seq<string>, reason: string) returns (kept: seq<string>)
    ensures kept == RemoveRepeats(ReplacedAll(career, warnings, reason))
  {
    kept := [];
    ghost var replaced := ReplacedAll(career, warnings, reason);
    var i := 0;
    while i < |warnings|
      invariant 0 <= i <= |warnings| && kept == RemoveRepeats(replaced[..i])
    {
      assert replaced[..i + 1][..i] == replaced[..i];
      var warning := warnings[i];
      if !(CORRECTION_PREFIX <= warning) && career.availabilityConflict(warning) {
        warning := reason;
      }
      if warning !in kept {
        kept := kept + [warning];
      }
      i := i + 1;
    }
    assert replaced[..i] == replaced;
  }

  /** The first re-explained availability row: row `i` as it is shown. */
  ghost predicate FirstExplained(final: seq<Row>, i: int) {
    && 0 <= i < |final| && CorrectedAvailability(final[i])
    && forall j :: 0 <= j < i ==> !CorrectedAvailability(final[j])
  }

  lemma {:induction false} FirstAvailabilityIff(rules: Rules, rows: seq<Row>)
    ensures var first := FirstAvailability(rules, rows); var final := CorrectedRows(rules, rows);
      && (first.None? <==> forall i :: 0 <= i < |final| ==> !CorrectedAvailability(final[i]))
      && (first.Some? ==> exists i :: FirstExplained(final, i) && final[i].reason == first.value)
  {
    hide CorrectedAvailability, Marked, UnverifiedReason;
    if rows != [] {
      CorrectedTwice(rules, rows[0]);
      FirstAvailabilityIff(rules, rows[1..]);
      var final, rest := CorrectedRows(rules, rows), CorrectedRows(rules, rows[1..]);
      assert final[1..] == rest;
      if CorrectedAvailability(rows[0]) {
        AvailabilityIsMarked(rules, rows[0]);
        assert FirstExplained(final, 0);
      } else if FirstAvailability(rules, rows).Some? {
        var i :| FirstExplained(rest, i) && rest[i].reason == FirstAvailability(rules, rows).value;
        forall j | 0 <= j < i + 1
          ensures !CorrectedAvailability(final[j])
        {
          assert j > 0 ==> final[j] == rest[j - 1];
        }
        assert FirstExplained(final, i + 1);
      }
    }
  }

  lemma AvailabilityIsMarked(rules: Rules, row: Row)
    requires CorrectedAvailability(row)
    ensures Corrected(rules, row).reason == UnverifiedReason(rules, row)
  {
  }

  /** A warning that still calls saved availability a conflict. */
  predicate Stale(career: CareerRules, warning: string) {
    career.availabilityConflict(warning) && !(CORRECTION_PREFIX <= warning)
  }

  /** What the reader is told after gap correction. Warnings change only for a job that shows a
      re-explained availability row and no gap; then the stale ones give way to the reason of the first
      such row, all others stay, and repeats go. */
  lemma WarningsMeaning(rules: Rules, career: CareerRules, rows: seq<Row>, warnings: seq<string>)
    ensures var (final, w) := CorrectItem(rules, career, rows, warnings);
      if (forall i :: 0 <= i < |final| ==> !CorrectedAvailability(final[i])) || (exists i :: 0 <= i < |final| && final[i].outcome == Gap)
      then w == warnings
      else NoRepeats(w) && ExplainedBy(career, final, warnings, w)
  {
    hide CorrectedAvailability;
    FirstAvailabilityIff(rules, rows);
    var first, final := FirstAvailability(rules, rows), CorrectedRows(rules, rows);
    if first.Some? {
      var i :| FirstExplained(final, i) && final[i].reason == first.value;
      var replaced := ReplacedAll(career, warnings, first.value);
      RemoveRepeatsMeaning(replaced);
      forall t
        ensures t in RemoveRepeats(replaced) <==> ExplainedAs(career, warnings, t, first.value)
      {
        ReplacedIff(career, warnings, first.value, t);
      }
    }
  }

  predicate ExplainedAs(career: CareerRules, warnings: seq<string>, t: string, reason: string) {
    (t in warnings && !Stale(career, t)) || (t == reason && exists i :: 0 <= i < |warnings| && Stale(career, warnings[i]))
  }

  ghost predicate Explained(career: CareerRules, warnings: seq<string>, w: seq<string>, reason: string) {
    forall t :: t in w <==> ExplainedAs(career, warnings, t, reason)
  }

  ghost predicate ExplainedBy(career: CareerRules, final: seq<Row>, warnings: seq<string>, w: seq<string>) {
    exists i :: FirstExplained(final, i) && Explained(career, warnings, w, final[i].reason)
  }

  lemma ReplacedIff(career: CareerRules, warnings: seq<string>, reason: string, t: string)
    ensures t in ReplacedAll(career, warnings, reason) <==> ExplainedAs(career, warnings, t, reason)
  {
    var replaced := ReplacedAll(career, warnings, reason);
    if t in replaced {
      var i :| 0 <= i < |replaced| && replaced[i] == t;
    }
    if t in warnings && !Stale(career, t) {
      var i :| 0 <= i < |warnings| && warnings[i] == t;
      assert replaced[i] == t;
    }
    if i :| 0 <= i < |warnings| && Stale(career, warnings[i]) {
      assert replaced[i] == reason;
    }
  }

  lemma CorrectedTwice(rules: Rules, row: Row)
    ensures Corrected(rules, Corrected(rules, row)) == Corrected(rules, row)
    ensures CorrectedAvailability(Corrected(rules, row)) == CorrectedAvailability(row)
    ensures UnverifiedReason(rules, Corrected(rules, row)) == UnverifiedReason(rules, row)
  {
    var reason := UnverifiedReason(rules, row);
    assert reason[..|CORRECTION_PREFIX|] == CORRECTION_PREFIX;
  }

  lemma {:induction false} AvailabilityTwice(rules: Rules, rows: seq<Row>)
    ensures FirstAvailability(rules, CorrectedRows(rules, rows)) == FirstAvailability(rules, rows)
  {
    hide Corrected, UnverifiedReason, CorrectedAvailability;
    if rows != [] {
      CorrectedTwice(rules, rows[0]);
      AvailabilityTwice(rules, rows[1..]);
      assert CorrectedRows(rules, rows)[1..] == CorrectedRows(rules, rows[1..]);
    }
  }

  lemma {:induction false} FirstAvailabilityMarked(rules: Rules, rows: seq<Row>)
    ensures FirstAvailability(rules, rows).Some? ==> CORRECTION_PREFIX <= FirstAvailability(rules, rows).value
  {
    if rows != [] {
      FirstAvailabilityMarked(rules, rows[1..]);
      assert UnverifiedReason(rules, rows[0])[..|CORRECTION_PREFIX|] == CORRECTION_PREFIX;
    }
  }

  /** The read-safe projection may be applied to saved results any number of times: the second
      application changes nothing, and none changes an outcome or a citation. */
  lemma CorrectionIsIdempotent(rules: Rules, career: CareerRules, rows: seq<Row>, warnings: seq<string>)
    ensures var (r, w) := CorrectItem(rules, career, rows, warnings);
      && CorrectItem(rules, career, r, w) == (r, w)
      && |r| == |rows| && forall i :: 0 <= i < |r| ==> r[i] == rows[i].(reason := r[i].reason)
  {
    hide Corrected, UnverifiedReason, CorrectedAvailability;
    var (r, w) := CorrectItem(rules, career, rows, warnings);
    forall i | 0 <= i < |r|
      ensures Corrected(rules, r[i]) == r[i] && r[i] == rows[i].(reason := r[i].reason)
    {
      CorrectedTwice(rules, rows[i]);
      CorrectedKeeps(rules, rows[i]);
    }
    assert CorrectedRows(rules, r) == r;
    AvailabilityTwice(rules, rows);
    FirstAvailabilityMarked(rules, rows);
    var reason := FirstAvailability(rules, rows);
    if reason.Some? && !HasGap(r) {
      var replaced := ReplacedAll(career, warnings, reason.value);
      RemoveRepeatsMeaning(replaced);
      forall i | 0 <= i < |w|
        ensures Replaced(career, w[i], reason.value) == w[i]
      {
        assert w[i] in replaced;
      }
      assert ReplacedAll(career, w, reason.value) == w;
      RemoveRepeatsFixed(w);
    }
  }

  lemma CorrectedKeeps(rules: Rules, row: Row)
    ensures Corrected(rules, row) == row.(reason := Corrected(rules, row).reason)
  {
  }

  // ----- the batch order

  function RanksOf(items: seq<Ranked>): set<nat> {
    set i | 0 <= i < |items| :: items[i].item.rank
  }

  /** The rank check of `validate_assessment`, which compares sets, does make ranks distinct:
      N items cannot cover 1..N with a repeat. */
  lemma RankSetMeansDistinct(items: seq<Ranked>)
    requires RanksOf(items) == UpTo(|items|)
    ensures DistinctRanks(items)
  {
    RangeSize(|items|);
    hide RanksOf, UpTo;
    forall i, j | 0 <= i < j < |items|
      ensures items[i].item.rank != items[j].item.rank
    {
      if items[i].item.rank == items[j].item.rank {
        RepeatLosesRank(items, i, j);
      }
    }
  }

  /** With a repeated rank there are fewer ranks than items. */
  lemma RepeatLosesRank(items: seq<Ranked>, i: nat, j: nat)
    requires i < j < |items| && items[i].item.rank == items[j].item.rank
    ensures |RanksOf(items)| < |items|
  {
    var others := items[..j] + items[j + 1..];
    RanksBound(others);
    forall r | r in RanksOf(items)
      ensures r in RanksOf(others)
    {
      var k :| 0 <= k < |items| && items[k].item.rank == r;
      var at := if k < j then k else if k == j then i else k - 1;
      assert others[at].item.rank == r;
    }
    hide RanksOf;
    SubsetSize(RanksOf(items), RanksOf(others));
  }

  /** The numbers 1..n. */
  function UpTo(n: nat): set<nat> {
    if n == 0 then {} else UpTo(n - 1) + {n}
  }

  lemma {:induction false} RangeSize(n: nat)
    ensures |UpTo(n)| == n && forall r :: r in UpTo(n) <==> 1 <= r <= n
  {
    if n > 0 {
      RangeSize(n - 1);
    }
  }

  lemma {:induction false} RanksBound(items: seq<Ranked>)
    ensures |RanksOf(items)| <= |items|
  {
    if items == [] {
      assert RanksOf(items) == {};
    } else {
      var init, last := items[..|items| - 1], items[|items| - 1];
      RanksBound(init);
      assert RanksOf(items) == RanksOf(init) + {last.item.rank} by {
        assert forall i :: 0 <= i < |items| ==> items[i] == if i == |items| - 1 then last else init[i];
      }
    }
  }

  lemma {:induction false} SubsetSize(a: set<nat>, b: set<nat>)
    requires a <= b
    ensures |a| <= |b|
  {
    if a != {} {
      var x :| x in a;
      SubsetSize(a - {x}, b - {x});
    }
  }

  // ----- the whole batch

  function RankedItem(rules: Rules, career: CareerRules, profile: Profile, item: Item): Ranked {
    Ranked(item, Notes(rules, career, profile, item.rows) != [])
  }

  function RankedItems(rules: Rules, career: CareerRules, profile: Profile, items: seq<Item>): (r: seq<Ranked>)
    ensures |r| == |items| && forall i :: 0 <= i < |r| ==> r[i] == RankedItem(rules, career, profile, items[i])
  {
    seq(|items|, i requires 0 <= i < |items| => RankedItem(rules, career, profile, items[i]))
  }

  /** One job after prioritizing, the second strength check and gap correction. */
  function FinalItem(rules: Rules, career: CareerRules, profile: Profile, item: Item, rank: nat): Item {
    var strengths := FinishStrengths(rules, career, profile, item);
    var noted := AddNotes(item.warnings, Notes(rules, career, profile, item.rows));
    var (rows, warnings) := CorrectItem(rules, career, PrioritizedRows(rules, profile, item.rows), noted);
    item.(rank := rank, rows := rows, warnings := warnings, strengths := if strengths.Ok? then strengths.value else [])
  }

  predicate Refuses(career: CareerRules, item: Item) {
    ReviewStrengths(career, item.rows, item.related, item.strengths).Err?
  }

  predicate Names(items: seq<Item>, id: string) {
    exists i :: 0 <= i < |items| && items[i].jobId == id
  }

  /** One item for each requested job, ranked from 1 on. */
  ghost predicate Complete(rules: Rules, career: CareerRules, profile: Profile, jobs: set<string>, items: seq<Item>) {
    && |items| == |jobs| && (forall id :: id in jobs <==> Names(items, id))
    && RanksOf(RankedItems(rules, career, profile, items)) == UpTo(|jobs|)
  }

  /** The batch part of `validate_assessment`, for jobs whose rows passed validation: the checks of
      ids and ranks, the first strength check, prioritizing with its sort, and the final
      projection. */
  ghost function FinishBatch(rules: Rules, career: CareerRules, profile: Profile, jobs: set<string>, items: seq<Item>)
    : Result<seq<Item>, EvidenceError>
  {
    var ranked := RankedItems(rules, career, profile, items);
    if !Complete(rules, career, profile, jobs, items) || exists i :: 0 <= i < |items| && Refuses(career, items[i])
    then Err(InvalidEvidence)
    else
      var sorted := Sort(ranked);
      Ok(seq(|sorted|, i requires 0 <= i < |sorted| => FinalItem(rules, career, profile, sorted[i].item, i + 1)))
  }

  /** What the batch makes of one job. */
  ghost predicate FinalFor(rules: Rules, career: CareerRules, profile: Profile, item: Item, final: Item) {
    && final == item.(rank := final.rank, rows := final.rows, warnings := final.warnings, strengths := final.strengths)
    && final.rows == FinalRows(rules, profile, item)
    && Follows(career, final.rows, final.related, item.strengths, final.strengths)
  }

  lemma FinalItemIsSound(rules: Rules, career: CareerRules, profile: Profile, item: Item, rank: nat)
    requires !Refuses(career, item)
    ensures FinalFor(rules, career, profile, item, FinalItem(rules, career, profile, item, rank))
    ensures FinalItem(rules, career, profile, item, rank).rank == rank
    ensures RankedItem(rules, career, profile, item).flagged <==>
      SomeFlags(rules, career, profile, FinalItem(rules, career, profile, item, rank).rows)
  {
    FinalStrengthsAreSourced(rules, career, profile, item);
    ReviewIsExact(career, item.rows, item.related, item.strengths);
    FlaggedIff(rules, career, profile, item.rows);
    hide StrengthSources, FinishStrengths, Notes, SomeFlags, PrioritizedRows, CorrectedRows, Follows, WellFormed, ReviewStrengths;
  }

  ghost predicate NotesNewlyShown(rules: Rules, career: CareerRules, profile: Profile, item: Item, final: Item, front: seq<string>) {
    && NoRepeats(front)
    && forall t :: t in front <==>
      t !in item.warnings && exists i :: 0 <= i < |final.rows| && LeavesNote(rules, career, profile, final.rows[i], t)
  }

  /** The warnings shown with a job, while they fit in twenty: the model's own with the notes its final
      rows call for in front, unless gap correction explains saved availability. */
  lemma FinalWarnings(rules: Rules, career: CareerRules, profile: Profile, item: Item, rank: nat) returns (front: seq<string>)
    requires |item.warnings| + |Unlisted(item.warnings, Notes(rules, career, profile, item.rows))| <= 20
    ensures var final := FinalItem(rules, career, profile, item, rank);
      && NotesNewlyShown(rules, career, profile, item, final, front)
      && if (forall i :: 0 <= i < |final.rows| ==> !CorrectedAvailability(final.rows[i]))
            || (exists i :: 0 <= i < |final.rows| && final.rows[i].outcome == Gap)
         then final.warnings == front + item.warnings
         else ExplainedBy(career, final.rows, front + item.warnings, final.warnings)
  {
    hide Notes, LeavesNote, FinishStrengths, CorrectedAvailability, PrioritizedRows, FinalRow, Explained, CorrectedRows, Unlisted;
    var final, notes := FinalItem(rules, career, profile, item, rank), Notes(rules, career, profile, item.rows);
    front := AddNotesMeaning(item.warnings, notes);
    WarningsMeaning(rules, career, PrioritizedRows(rules, profile, item.rows), front + item.warnings);
    FinalRowsAre(rules, career, profile, item, rank);
    forall t
      ensures t in notes <==> exists i :: 0 <= i < |final.rows| && LeavesNote(rules, career, profile, final.rows[i], t)
    {
      NotesMeaning(rules, career, profile, item.rows, t);
      if i :| 0 <= i < |item.rows| && LeavesNote(rules, career, profile, FinalRow(rules, profile, item.rows[i]), t) {
        assert LeavesNote(rules, career, profile, final.rows[i], t);
      }
    }
  }

  lemma FinalRowsAre(rules: Rules, career: CareerRules, profile: Profile, item: Item, rank: nat)
    ensures var final := FinalItem(rules, career, profile, item, rank).rows;
      |final| == |item.rows| && forall i :: 0 <= i < |final| ==> final[i] == FinalRow(rules, profile, item.rows[i])
  {
    hide Notes, FinishStrengths, Prioritized, Corrected;
  }

  /** No job with a flagging final row comes before one without. */
  ghost predicate FlaggedLast(rules: Rules, career: CareerRules, profile: Profile, final: seq<Item>) {
    forall i, j :: 0 <= i < j < |final| ==>
      !(SomeFlags(rules, career, profile, final[i].rows) && !SomeFlags(rules, career, profile, final[j].rows))
  }

  /** Within each of the two groups the model's ranks still ascend. */
  ghost predicate ModelOrderKept(rules: Rules, career: CareerRules, profile: Profile, sorted: seq<Item>, final: seq<Item>)
    requires |sorted| == |final|
  {
    forall i, j :: 0 <= i < j < |final|
      && SomeFlags(rules, career, profile, final[i].rows) == SomeFlags(rules, career, profile, final[j].rows)
      ==> sorted[i].rank < sorted[j].rank
  }

  /** A finished batch holds the same jobs, ranked 1 to N; no job with a flagging final row comes
      before one without; within each of the two groups the model's order is kept; and each job's
      remaining strengths are backed by its own final rows. `sorted` names the job behind each
      place. */
  lemma ValidatedBatchOrder(rules: Rules, career: CareerRules, profile: Profile, jobs: set<string>, items: seq<Item>) returns (sorted: seq<Item>)
    requires FinishBatch(rules, career, profile, jobs, items).Ok?
    ensures multiset(sorted) == multiset(items)
    ensures var final := FinishBatch(rules, career, profile, jobs, items).value;
      && |final| == |sorted| == |items| == |jobs| && (forall id :: id in jobs <==> Names(final, id))
      && (forall i :: 0 <= i < |final| ==> final[i].rank == i + 1 && FinalFor(rules, career, profile, sorted[i], final[i]))
      && FlaggedLast(rules, career, profile, final)
      && ModelOrderKept(rules, career, profile, sorted, final)
  {
    hide RankedItems, FinishBatch, Sort, ItemsOf, PlaceIs, FlaggedLast, ModelOrderKept, RanksOf, UpTo, Names;
    var order, final := Sort(RankedItems(rules, career, profile, items)), FinishBatch(rules, career, profile, jobs, items).value;
    sorted := ItemsOf(order);
    FinishedChecks(rules, career, profile, jobs, items);
    OrderIs(rules, career, profile, items);
    PlacesAre(rules, career, profile, jobs, items);
    PlacesAreOrdered(rules, career, profile, order, final);
    forall i | 0 <= i < |final|
      ensures final[i].rank == i + 1 && FinalFor(rules, career, profile, sorted[i], final[i])
    {
      PlaceMeans(rules, career, profile, order[i], final[i], i + 1);
    }
    SameNames(items, sorted, final);
  }

  /** A permutation whose places keep their job ids names the same jobs. */
  lemma SameNames(items: seq<Item>, sorted: seq<Item>, final: seq<Item>)
    requires multiset(items) == multiset(sorted) && |sorted| == |final|
    requires forall i :: 0 <= i < |sorted| ==> final[i].jobId == sorted[i].jobId
    ensures forall id :: Names(items, id) <==> Names(final, id)
  {
    forall id
      ensures Names(items, id) <==> Names(final, id)
    {
      if i :| 0 <= i < |items| && items[i].jobId == id {
        assert items[i] in multiset(sorted);
        var j :| 0 <= j < |sorted| && sorted[j] == items[i];
        assert final[j].jobId == id;
      }
      if i :| 0 <= i < |final| && final[i].jobId == id {
        assert sorted[i] in multiset(items);
        var j :| 0 <= j < |items| && items[j] == sorted[i];
        assert items[j].jobId == id;
      }
    }
  }

  lemma PlaceMeans(rules: Rules, career: CareerRules, profile: Profile, place: Ranked, final: Item, rank: nat)
    requires PlaceIs(rules, career, profile, place, final, rank)
    ensures final.rank == rank && FinalFor(rules, career, profile, place.item, final)
  {
  }

  lemma OrderIs(rules: Rules, career: CareerRules, profile: Profile, items: seq<Item>)
    requires RanksOf(RankedItems(rules, career, profile, items)) == UpTo(|items|)
    ensures var order := Sort(RankedItems(rules, career, profile, items));
      && |order| == |items| && multiset(ItemsOf(order)) == multiset(items)
      && (forall i, j :: 0 <= i < j < |order| ==> !(order[i].flagged && !order[j].flagged))
      && (forall i, j :: 0 <= i < j < |order| && order[i].flagged == order[j].flagged ==> order[i].item.rank < order[j].item.rank)
  {
    hide RankedItems, Sort, ItemsOf, RanksOf, UpTo;
    var ranked := RankedItems(rules, career, profile, items);
    RankSetMeansDistinct(ranked);
    RankingMeaning(ranked);
    SortItems(ranked);
    RankedItemsAre(rules, career, profile, items);
  }

  lemma PlacesAre(rules: Rules, career: CareerRules, profile: Profile, jobs: set<string>, items: seq<Item>)
    requires FinishBatch(rules, career, profile, jobs, items).Ok?
    ensures var order, final := Sort(RankedItems(rules, career, profile, items)), FinishBatch(rules, career, profile, jobs, items).value;
      |order| == |final| && forall i :: 0 <= i < |order| ==> PlaceIs(rules, career, profile, order[i], final[i], i + 1)
  {
    hide FinalItem, RankedItem, Refuses, PlaceIs, Sort, RankedItems, FinishBatch;
    FinishedAre(rules, career, profile, jobs, items);
    FinishedChecks(rules, career, profile, jobs, items);
    var ranked := RankedItems(rules, career, profile, items);
    SortMultiset(ranked);
    var order, final := Sort(ranked), FinishBatch(rules, career, profile, jobs, items).value;
    forall i | 0 <= i < |order|
      ensures PlaceIs(rules, career, profile, order[i], final[i], i + 1)
    {
      OrderIsFromItems(rules, career, profile, items, order, i);
      PlaceIsSound(rules, career, profile, order[i], i + 1);
    }
  }

  lemma PlaceIsSound(rules: Rules, career: CareerRules, profile: Profile, place: Ranked, rank: nat)
    requires place == RankedItem(rules, career, profile, place.item) && !Refuses(career, place.item)
    ensures PlaceIs(rules, career, profile, place, FinalItem(rules, career, profile, place.item, rank), rank)
  {
    hide FinalItem, Refuses, SomeFlags, FinalFor, Notes;
    FinalItemIsSound(rules, career, profile, place.item, rank);
  }

  ghost predicate PlaceIs(rules: Rules, career: CareerRules, profile: Profile, place: Ranked, final: Item, rank: nat) {
    && final.rank == rank && FinalFor(rules, career, profile, place.item, final)
    && place.flagged == SomeFlags(rules, career, profile, final.rows)
  }

  lemma PlacesAreOrdered(rules: Rules, career: CareerRules, profile: Profile, order: seq<Ranked>, final: seq<Item>)
    requires |order| == |final| && forall i :: 0 <= i < |order| ==> PlaceIs(rules, career, profile, order[i], final[i], i + 1)
    requires forall i, j :: 0 <= i < j < |order| ==> !(order[i].flagged && !order[j].flagged)
    requires forall i, j :: 0 <= i < j < |order| && order[i].flagged == order[j].flagged ==> order[i].item.rank < order[j].item.rank
    ensures FlaggedLast(rules, career, profile, final)
    ensures ModelOrderKept(rules, career, profile, ItemsOf(order), final)
  {
    hide SomeFlags, FinalFor;
    forall i | 0 <= i < |order|
      ensures order[i].flagged == SomeFlags(rules, career, profile, final[i].rows)
    {
      assert PlaceIs(rules, career, profile, order[i], final[i], i + 1);
    }
  }

  lemma FinishedAre(rules: Rules, career: CareerRules, profile: Profile, jobs: set<string>, items: seq<Item>)
    requires FinishBatch(rules, career, profile, jobs, items).Ok?
    ensures var final, sorted := FinishBatch(rules, career, profile, jobs, items).value, Sort(RankedItems(rules, career, profile, items));
      |final| == |sorted| && forall i :: 0 <= i < |final| ==> final[i] == FinalItem(rules, career, profile, sorted[i].item, i + 1)
  {
    hide FinalItem, Sort, RankedItems, Refuses, Complete;
  }

  lemma FinishedChecks(rules: Rules, career: CareerRules, profile: Profile, jobs: set<string>, items: seq<Item>)
    requires FinishBatch(rules, career, profile, jobs, items).Ok?
    ensures RanksOf(RankedItems(rules, career, profile, items)) == UpTo(|items|)
    ensures |items| == |jobs| && forall id :: id in jobs <==> Names(items, id)
    ensures forall i :: 0 <= i < |items| ==> !Refuses(career, items[i])
  {
    hide FinalItem, Sort, RanksOf, UpTo, RankedItems, Refuses, Names;
  }

  lemma RankedItemsAre(rules: Rules, career: CareerRules, profile: Profile, items: seq<Item>)
    ensures ItemsOf(RankedItems(rules, career, profile, items)) == items
  {
  }

  lemma OrderIsFromItems(rules: Rules, career: CareerRules, profile: Profile, items: seq<Item>, order: seq<Ranked>, i: nat)
    requires multiset(order) == multiset(RankedItems(rules, career, profile, items)) && i < |order|
    ensures order[i].item in items && order[i] == RankedItem(rules, career, profile, order[i].item)
  {
    hide Notes;
    var ranked := RankedItems(rules, career, profile, items);
    assert order[i] in multiset(ranked);
    var k :| 0 <= k < |ranked| && ranked[k] == order[i];
  }

  function ItemsOf(ranked: seq<Ranked>): (r: seq<Item>)
    ensures |r| == |ranked| && forall i :: 0 <= i < |r| ==> r[i] == ranked[i].item
  {
    seq(|ranked|, i requires 0 <= i < |ranked| => ranked[i].item)
  }

  lemma ItemsCons(x: Ranked, rest: seq<Ranked>)
    ensures multiset(ItemsOf([x] + rest)) == multiset{x.item} + multiset(ItemsOf(rest))
  {
    assert ItemsOf([x] + rest) == [x.item] + ItemsOf(rest);
  }

  lemma {:induction false} InsertItems(x: Ranked, sorted: seq<Ranked>)
    ensures multiset(ItemsOf(Insert(x, sorted))) == multiset{x.item} + multiset(ItemsOf(sorted))
  {
    hide ItemsOf, Before;
    if sorted == [] || Before(x, sorted[0]) {
      ItemsCons(x, sorted);
    } else {
      var rest := sorted[1..];
      InsertItems(x, rest);
      ItemsCons(sorted[0], Insert(x, rest));
      ItemsCons(sorted[0], rest);
      assert sorted == [sorted[0]] + rest;
    }
  }

  lemma {:induction false} SortItems(ranked: seq<Ranked>)
    ensures multiset(ItemsOf(Sort(ranked))) == multiset(ItemsOf(ranked))
  {
    hide ItemsOf, Insert;
    if ranked != [] {
      SortItems(ranked[1..]);
      InsertItems(ranked[0], Sort(ranked[1..]));
      ItemsCons(ranked[0], ranked[1..]);
      assert ranked == [ranked[0]] + ranked[1..];
    }
  }

  /** When a batch is refused at this point: it does not hold the requested jobs ranked from 1, or
      some strength refers to nothing. The second strength check adds no refusal. */
  lemma BatchRefusedIff(rules: Rules, career: CareerRules, profile: Profile, jobs: set<string>, items: seq<Item>)
    ensures FinishBatch(rules, career, profile, jobs, items).Err? <==>
      !Complete(rules, career, profile, jobs, items) || exists i :: 0 <= i < |items| && Malformed(items[i])
    ensures forall i :: 0 <= i < |items| ==> (FinishStrengths(rules, career, profile, items[i]).Err? <==> Malformed(items[i]))
  {
    hide Complete, Sort, FinalItem, RankedItems, FinishStrengths, Refuses, Malformed;
    forall i | 0 <= i < |items|
      ensures Refuses(career, items[i]) <==> Malformed(items[i])
      ensures FinishStrengths(rules, career, profile, items[i]).Err? <==> Malformed(items[i])
    {
      RefusesIff(rules, career, profile, items[i]);
    }
  }

  predicate Malformed(item: Item) {
    exists k :: 0 <= k < |item.strengths| && !WellFormed(item.rows, item.strengths[k])
  }

  lemma RefusesIff(rules: Rules, career: CareerRules, profile: Profile, item: Item)
    ensures Refuses(career, item) <==> Malformed(item)
    ensures FinishStrengths(rules, career, profile, item).Err? <==> Malformed(item)
  {
    ReviewIsExact(career, item.rows, item.related, item.strengths);
    FinalStrengthsAreSourced(rules, career, profile, item);
    hide ReviewStrengths, FinishStrengths, Follows, WellFormed;
  }
}
