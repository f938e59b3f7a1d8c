/** Which reason the reader is given for an outcome, and that each reason fits its column. */
module Reasons {
  import opened Text
  import opened Wrappers
  import opened Citations
  import opened Evidence
  import opened EvidenceTheorems
  import opened ExactOutcomes

  // ----- reasons stay within the 2000 characters of their column

  /** `_append_reason` keeps a reason within 2000 characters and ends it with the whole note; before the
      note stands the longest start of the old reason that fits, without trailing whitespace. */
  lemma AppendedReasonFits(reason: string, note: string) returns (kept: string)
    ensures AppendReason(reason, note) == kept + " " + note && kept <= reason
    ensures kept != "" ==> !IsSpace(kept[|kept| - 1])
    ensures |note| <= 1999 ==>
      |AppendReason(reason, note)| <= 2000 && AllSpace(reason[|kept|..if |reason| + |note| < 1999 then |reason| else 1999 - |note|])
  {
    var cut := Cut(reason, 1999 - |note|);
    kept := StripRight(cut);
    StripRightIs(cut);
    assert kept <= cut <= reason;
    if |note| <= 1999 {
      assert cut == reason[..|cut|];
      assert cut[|kept|..] == reason[|kept|..|cut|];
    }
  }

  /** The suffix used while resolving: no character of the note is lost, and none of the old reason
      while both fit in 2000. */
  lemma SuffixedReasonFits(reason: string, note: string)
    requires |note| <= 2000
    ensures var r := SuffixReason(reason, note); var n := |r| - |note|;
      0 <= n && r[n..] == note && r[..n] == reason[..n] && |r| == if |reason| + |note| <= 2000 then |reason| + |note| else 2000
  {
  }

  // ----- stage by stage

  /** What the validation guards may say against a supported row. */
  predicate GuardObjects(rules: Rules, category: Category, requirement: string, wanted: string, field: Option<Field>, quote: Option<string>, before: string, reason: string) {
    || (category == ConstraintRow && rules.availabilityUnproven(field, TextOf(quote), wanted)
        && reason == AppendReason(before, rules.note(AvailabilityUnproven)))
    || (category == ExperienceRow && rules.yearsUnproven(requirement, TextOf(quote))
        && reason == AppendReason(before, rules.note(YearsUnproven)))
    || (category == EducationRow && rules.degreeUnproven(wanted, TextOf(quote))
        && reason == AppendReason(before, rules.note(DegreeUnproven)))
  }

  /** What prioritizing may say against it. */
  predicate PriorityObjects(rules: Rules, category: Category, requirement: string, wanted: string, field: Option<Field>, quote: Option<string>, reason: string) {
    || (category == SkillRow && rules.compoundUnmet(wanted, TextOf(quote)) && reason == rules.note(OnlyOnePart))
    || rules.construction(requirement, wanted, TextOf(quote)) == Some(reason)
    || rules.activityIssue(requirement, category, field, quote) == Some(reason)
  }

  lemma GuardedReason(rules: Rules, row: Row, atomic: bool)
    ensures var g := Guarded(rules, row, atomic); var wanted := if atomic then row.requirement else row.jdQuote;
      && (g.outcome == row.outcome ==> g == row)
      && (g.outcome != row.outcome ==> g.outcome == Unknown)
      && (g.outcome != row.outcome && row.outcome == Gap ==> g.reason == UnverifiedReason(rules, row))
      && (g.outcome != row.outcome && row.outcome == Supported ==>
            || (atomic && rules.subjectIssue(row.requirement, row.category, row.quote) == Some(g.reason))
            || GuardObjects(rules, row.category, row.requirement, wanted, row.field, row.quote, row.reason, g.reason))
  {
    hide AppendReason, UnverifiedReason;
  }

  lemma PrioritizedReason(rules: Rules, profile: Profile, row: Row, atomic: bool)
    ensures var p := Prioritized(rules, profile, row, atomic, false); var wanted := if atomic then row.requirement else row.jdQuote;
      var timing := rules.timing(row.category, wanted, TextOf(profile.education));
      var routed := row.category == ExperienceRow && rules.zeroRoute(row.requirement);
      && (timing.Some? ==> p.reason == timing.value.0)
      && (timing.None? && routed ==> p.reason == rules.note(ZeroYearRoute))
      && (timing.None? && p.outcome != row.outcome ==> row.outcome == Supported && p.outcome == Unknown)
      && (timing.None? && !routed && p.outcome == row.outcome ==> p.reason == row.reason)
      && (timing.None? && !routed && p.outcome != row.outcome ==>
            PriorityObjects(rules, row.category, row.requirement, wanted, row.field, row.quote, p.reason))
  {
  }

  lemma PrioritizedShape(rules: Rules, profile: Profile, row: Row, atomic: bool)
    ensures var p := Prioritized(rules, profile, row, atomic, false); var wanted := if atomic then row.requirement else row.jdQuote;
      var timing := rules.timing(row.category, wanted, TextOf(profile.education));
      p == row.(outcome := p.outcome, reason := p.reason, field := if timing.Some? then Some(Education) else row.field,
                quote := if timing.Some? then profile.education else row.quote)
  {
  }

  /** What resolving may say against a supported row. */
  predicate ResolvingObjects(rules: Rules, ref: RefRow, quote: Option<string>, checks: seq<Check>, reason: string) {
    var scope, activity := rules.compoundScope(ref.requirement, ref.op, ref.category),
                           rules.activityIssue(ref.requirement, ref.category, ref.field, quote);
    || (scope.Some? && reason == SuffixReason(ref.reason, " " + scope.value))
    || (scope.None? && activity.Some? && reason == SuffixReason(ref.reason, " " + activity.value))
    || (!Meets(ref.op, checks) && reason == SuffixReason(ref.reason, rules.note(ConditionsNotCovered)))
  }

  lemma ResolvedReason(rules: Rules, ref: RefRow, passage: string, quote: Option<string>, checks: seq<Check>)
    ensures var r := ResolvedRow(rules, ref, passage, quote, checks);
      && (r.outcome == ref.outcome || r.outcome == Unknown)
      && (ref.outcome != Unknown && r.outcome == ref.outcome ==> r.reason == ref.reason)
      && (ref.outcome == Supported && r.outcome != Supported ==> ResolvingObjects(rules, ref, quote, checks, r.reason))
      && (ref.outcome != Supported && r.outcome == Unknown && SomeBare(rules, ref, checks) ==> r.reason == UnverifiedReason(rules, r))
      && (ref.outcome == Gap && r.outcome != Gap && !SomeBare(rules, ref, checks) ==>
            r.reason == SuffixReason(ref.reason, rules.note(ConditionsNotCovered)))
      && (ref.outcome == Unknown && !SomeBare(rules, ref, checks) ==> r.reason == ref.reason)
  {
    hide SuffixReason;
    BareIff(rules, ref, checks);
    AggregateIff(ref.op, checks);
    hide Aggregate, Meets, GapsMeet, SomeBare, UnprovenGap;
  }

  // ----- the whole pipeline

  /** Every objection that the server may raise to support, each with its condition. */
  predicate Objection(rules: Rules, ref: RefRow, passage: string, quote: Option<string>, checks: seq<Check>, reason: string) {
    var wanted, shown := Strip(passage), StripQuote(quote);
    || ResolvingObjects(rules, ref, quote, checks, reason)
    || GuardObjects(rules, ref.category, ref.requirement, wanted, ref.field, shown, ref.reason, reason)
    || (checks != [] && !Meets(ref.op, checks) && reason == AppendReason(ref.reason, rules.note(AtomsInsufficient)))
    || PriorityObjects(rules, ref.category, ref.requirement, wanted, ref.field, shown, reason)
  }

  /** The standard words for a gap that no evidence establishes. */
  predicate Reexplained(rules: Rules, final: Row) {
    final.outcome == Unknown && Marked(final.reason)
  }

  /** The reason before the last stage, for a row that no dates and no zero-year route concern. */
  predicate Reasoned(rules: Rules, ref: RefRow, passage: string, quote: Option<string>, checks: seq<Check>, outcome: Outcome, reason: string) {
    match ref.outcome
    case Supported => if outcome == Supported then reason == ref.reason else Objection(rules, ref, passage, quote, checks, reason)
    case Gap =>
      if outcome == Gap then reason == ref.reason
      else CORRECTION_PREFIX <= reason || reason == SuffixReason(ref.reason, rules.note(ConditionsNotCovered))
    case Unknown => reason == ref.reason || CORRECTION_PREFIX <= reason
  }

  /** Validation and prioritizing of one row, as far as its reason goes. */
  lemma LaterReason(rules: Rules, profile: Profile, source: string, row: Row) returns (checks: seq<Check>)
    requires row.op.Some? && ValidateRow(rules, profile, source, row).Ok?
    ensures var p := Prioritized(rules, profile, ValidateRow(rules, profile, source, row).value, false, false);
      var timing := rules.timing(row.category, row.jdQuote, TextOf(profile.education));
      var routed := row.category == ExperienceRow && rules.zeroRoute(row.requirement);
      && p == row.(outcome := p.outcome, reason := p.reason, checks := checks,
                   field := if timing.Some? then Some(Education) else row.field,
                   quote := if timing.Some? then profile.education else row.quote)
      && (timing.Some? ==> p.reason == timing.value.0)
      && (timing.None? && routed ==> p.reason == rules.note(ZeroYearRoute))
      && (timing.None? && p.outcome != row.outcome ==> p.outcome == Unknown)
      && (timing.None? && !routed ==>
            && (p.outcome == row.outcome ==> p.reason == row.reason)
            && (p.outcome != row.outcome && row.outcome == Gap ==> p.reason == UnverifiedReason(rules, row))
            && (p.outcome != row.outcome && row.outcome == Supported ==> LaterObjects(rules, row, checks, p.reason)))
    ensures |checks| == |row.checks|
    ensures forall i :: 0 <= i < |checks| ==>
      ValidateCheck(rules, profile, source, Guarded(rules, row, false), row.checks[i]) == Ok(checks[i])
  {
    checks := Validates(rules, profile, source, row);
    GuardedReason(rules, row, false);
    GuardedIff(rules, row, false);
    var guarded := Guarded(rules, row, false).(checks := checks);
    OperatorReason(rules, guarded);
    var valid := ApplyOperator(rules, guarded);
    PrioritizedReason(rules, profile, valid, false);
    PrioritizedShape(rules, profile, valid, false);
    hide Guarded, Prioritized, ApplyOperator, ValidateRow, ValidateCheck, Meets, UnverifiedReason, GuardObjects, PriorityObjects, AppendReason;
  }

  predicate LaterObjects(rules: Rules, row: Row, checks: seq<Check>, reason: string) {
    || GuardObjects(rules, row.category, row.requirement, row.jdQuote, row.field, row.quote, row.reason, reason)
    || (checks != [] && row.op.Some? && !Meets(row.op.value, checks) && reason == AppendReason(row.reason, rules.note(AtomsInsufficient)))
    || PriorityObjects(rules, row.category, row.requirement, row.jdQuote, row.field, row.quote, reason)
  }

  lemma OperatorReason(rules: Rules, row: Row)
    requires row.op.Some?
    ensures var r := ApplyOperator(rules, row);
      && (r.outcome == row.outcome ==> r == row)
      && (r.outcome != row.outcome ==>
            && row.outcome == Supported && row.checks != [] && !Meets(row.op.value, row.checks)
            && r == row.(outcome := Unknown, reason := AppendReason(row.reason, rules.note(AtomsInsufficient))))
  {
    AggregateIff(row.op.value, row.checks);
    hide AppendReason, Sufficient, Meets;
  }

  /** The reason before the last stage. */
  lemma ReasonedByStages(rules: Rules, ref: RefRow, passage: string, quote: Option<string>, before: seq<Check>, checks: seq<Check>,
                         resolved: Row, p: Row)
    requires resolved == ResolvedRow(rules, ref, passage, quote, before)
    requires Meets(ref.op, checks) ==> Meets(ref.op, before)
    requires p.outcome == resolved.outcome || p.outcome == Unknown
    requires p.outcome == resolved.outcome ==> p.reason == resolved.reason
    requires p.outcome != resolved.outcome && resolved.outcome == Gap ==> CORRECTION_PREFIX <= p.reason
    requires p.outcome != resolved.outcome && resolved.outcome == Supported ==> LaterObjects(rules, Cleaned(resolved), checks, p.reason)
    ensures Reasoned(rules, ref, passage, quote, checks, p.outcome, p.reason)
  {
    ResolvedReason(rules, ref, passage, quote, before);
    ResolvedRowIff(rules, ref, passage, quote, before);
    UnverifiedStarts(rules, resolved);
    hide ResolvedRow, GuardObjects, PriorityObjects, Meets, GapsMeet, SomeBare, UnverifiedReason, SuffixReason, AppendReason, Strip;
  }

  lemma UnverifiedStarts(rules: Rules, row: Row)
    ensures CORRECTION_PREFIX <= UnverifiedReason(rules, row)
  {
    assert UnverifiedReason(rules, row)[..|CORRECTION_PREFIX|] == CORRECTION_PREFIX;
  }

  /** The last stage. */
  lemma CorrectedReason(rules: Rules, p: Row)
    ensures var final := Corrected(rules, p);
      && final == p.(reason := final.reason)
      && (Reexplained(rules, final) ==> final.reason == UnverifiedReason(rules, final))
      && (!Reexplained(rules, final) ==> final == p)
  {
    UnverifiedStarts(rules, p);
    assert UnverifiedReason(rules, Corrected(rules, p)) == UnverifiedReason(rules, p);
  }

  /** The final row in full, but for its outcome: its texts are the model's and the resolved ones,
      education dates replace its citation, and its reason is a rule's that applies whenever the
      server lowered it, else the model's own. */
  lemma FinalReason(rules: Rules, payload: Payload, catalog: map<SourceId, SourceSpan>, job: Job, ref: RefRow)
    requires Pipeline(rules, payload, catalog, job, ref).Ok?
    ensures var final := Pipeline(rules, payload, catalog, job, ref).value;
      var passage, quote := Passage(catalog, job.id, ref), Shown(catalog, ref.field, ref.range);
      var timing := rules.timing(ref.category, Strip(passage), TextOf(payload.profile.education));
      && final == Row(ref.requirement, ref.category, final.outcome, Strip(passage),
                      if timing.Some? then Some(Education) else ref.field,
                      if timing.Some? then payload.profile.education else StripQuote(quote),
                      final.reason, final.checks, Some(ref.op))
      && (Reexplained(rules, final) ==> final.reason == UnverifiedReason(rules, final))
      && (!Reexplained(rules, final) && timing.Some? ==> final.reason == timing.value.0)
      && (!Reexplained(rules, final) && timing.None? ==>
            if ref.category == ExperienceRow && rules.zeroRoute(ref.requirement) then final.reason == rules.note(ZeroYearRoute)
            else Reasoned(rules, ref, passage, quote, final.checks, final.outcome, final.reason))
  {
    var passage, quote := Passage(catalog, job.id, ref), Shown(catalog, ref.field, ref.range);
    var resolvedChecks := Resolves(rules, catalog, job.id, ref);
    var resolved := ResolvedRow(rules, ref, passage, quote, resolvedChecks);
    ResolvedRowIff(rules, ref, passage, quote, resolvedChecks);
    ResolvedReason(rules, ref, passage, quote, resolvedChecks);
    var row := Cleaned(resolved);
    var checks := LaterReason(rules, payload.profile, job.description, row);
    ChecksOnlyFall(rules, payload.profile, job.description, resolved, checks);
    MeetsFalls(ref.op, resolvedChecks, checks);
    var valid := ValidateRow(rules, payload.profile, job.description, row).value;
    var p := Prioritized(rules, payload.profile, valid, false, false);
    UnverifiedStarts(rules, row);
    CorrectedReason(rules, p);
    hide Resolve, ProfileQuote, ResolveRow, ResolvedRow, ValidateRow, ValidateCheck, Guarded, Prioritized, Corrected, Meets, Passage, Shown,
      LaterObjects, Reasoned, GapsMeet, SomeBare, UnverifiedReason, SuffixReason, Strip, Marked, ResolvingObjects;
    if rules.timing(ref.category, Strip(passage), TextOf(payload.profile.education)).None?
       && !(ref.category == ExperienceRow && rules.zeroRoute(ref.requirement)) {
      ReasonedByStages(rules, ref, passage, quote, resolvedChecks, checks, resolved, p);
    }
  }

  // ----- conditions

  /** What may be said against a supported condition. */
  predicate CheckObjection(rules: Rules, ref: RefRow, check: RefCheck, quote: Option<string>, proof: Option<string>, reason: string) {
    var shown := StripQuote(proof);
    || ((!InRow(ref, check, quote, proof) || rules.activityIssue(check.condition, ref.category, check.field, proof).Some?)
        && reason == rules.note(ConditionNotShown))
    || rules.subjectIssue(check.condition, ref.category, shown) == Some(reason)
    || GuardObjects(rules, ref.category, check.condition, check.condition, check.field, shown, check.reason, reason)
    || PriorityObjects(rules, ref.category, check.condition, check.condition, check.field, shown, reason)
  }

  /** The reason of the one-row batch that a condition is validated as. */
  lemma AtomReason(rules: Rules, profile: Profile, source: string, atom: Row)
    requires ValidateAtom(rules, profile, source, atom).Ok?
    ensures var child := ValidateAtom(rules, profile, source, atom).value;
      var timing := rules.timing(atom.category, atom.requirement, TextOf(profile.education));
      var routed := atom.category == ExperienceRow && rules.zeroRoute(atom.requirement);
      && (!Reexplained(rules, child) && timing.Some? ==> child.reason == timing.value.0)
      && (!Reexplained(rules, child) && timing.None? && routed ==> child.reason == rules.note(ZeroYearRoute))
      && (!Reexplained(rules, child) && timing.None? && !routed ==>
            && (child.outcome == atom.outcome ==> child.reason == atom.reason)
            && (child.outcome != atom.outcome ==> atom.outcome == Supported && AtomObjects(rules, atom, child.reason)))
      && (Reexplained(rules, child) ==> child.reason == UnverifiedReason(rules, child))
      && child.category == atom.category && child.requirement == atom.requirement
  {
    GuardedReason(rules, atom, true);
    GuardedIff(rules, atom, true);
    var g := Guarded(rules, atom, true);
    PrioritizedReason(rules, profile, g, true);
    PrioritizedShape(rules, profile, g, true);
    var p := Prioritized(rules, profile, g, true, false);
    CorrectedReason(rules, p);
    UnverifiedStarts(rules, atom);
    hide Guarded, Prioritized, Corrected, UnverifiedReason, GuardObjects, PriorityObjects, Rejected;
  }

  predicate AtomObjects(rules: Rules, atom: Row, reason: string) {
    || rules.subjectIssue(atom.requirement, atom.category, atom.quote) == Some(reason)
    || GuardObjects(rules, atom.category, atom.requirement, atom.requirement, atom.field, atom.quote, atom.reason, reason)
    || PriorityObjects(rules, atom.category, atom.requirement, atom.requirement, atom.field, atom.quote, reason)
  }

  /** One condition through validation, as far as its reason goes. */
  lemma ValidatedCheckReason(rules: Rules, profile: Profile, source: string, row: Row, check: Check) returns (full: string)
    requires ValidateCheck(rules, profile, source, row, check).Ok? && check.quote == StripQuote(check.quote)
    ensures var c := ValidateCheck(rules, profile, source, row, check).value;
      var timing := rules.timing(row.category, check.condition, TextOf(profile.education));
      var routed := row.category == ExperienceRow && rules.zeroRoute(check.condition);
      var inRow := check.field == row.field && Within(TextOf(check.quote), TextOf(row.quote));
      && c == check.(outcome := c.outcome, reason := if |full| <= 1000 then full else full[..1000])
      && (timing.Some? ==> full == timing.value.0 || CORRECTION_PREFIX <= full)
      && (timing.None? && routed ==> full == rules.note(ZeroYearRoute) || CORRECTION_PREFIX <= full)
      && (timing.None? && !routed && !(CORRECTION_PREFIX <= full) ==>
            && (c.outcome == check.outcome ==> full == check.reason)
            && !(check.outcome == Gap && TextOf(check.quote) == "")
            && (c.outcome != check.outcome && inRow ==> check.outcome == Supported && CheckObjects(rules, row.category, check, full)))
  {
    var atom := Cleaned(Atom(row, check));
    AtomReason(rules, profile, source, atom);
    AtomIff(rules, profile, source, atom);
    var child := ValidateAtom(rules, profile, source, atom).value;
    full := child.reason;
    UnverifiedStarts(rules, child);
    hide ValidateAtom, Contains, Strip, GuardObjects, PriorityObjects, UnverifiedReason, Marked;
  }

  predicate CheckObjects(rules: Rules, category: Category, check: Check, reason: string) {
    || rules.subjectIssue(check.condition, category, check.quote) == Some(reason)
    || GuardObjects(rules, category, check.condition, check.condition, check.field, check.quote, check.reason, reason)
    || PriorityObjects(rules, category, check.condition, check.condition, check.field, check.quote, reason)
  }

  /** The reason of a condition that no dates and no zero-year route concern, unless it is the standard
      explanation. */
  predicate CheckReasoned(rules: Rules, ref: RefRow, check: RefCheck, quote: Option<string>, proof: Option<string>, outcome: Outcome, reason: string) {
    match check.outcome
    case Supported => if outcome == Supported then reason == check.reason else CheckObjection(rules, ref, check, quote, proof, reason)
    case Gap => if outcome == Gap then reason == check.reason else reason == rules.note(ConditionNotShown)
    case Unknown => reason == check.reason
  }

  lemma CheckReasonedByStages(rules: Rules, ref: RefRow, quote: Option<string>, proof: Option<string>, check: RefCheck, resolved: Check,
                              outcome: Outcome, full: string)
    requires resolved == Check(check.condition, resolved.outcome, check.field, StripQuote(proof),
                               if resolved.outcome == check.outcome then check.reason else rules.note(ConditionNotShown))
    requires resolved.outcome == Supported <==>
      check.outcome == Supported && InRow(ref, check, quote, proof) && rules.activityIssue(check.condition, ref.category, check.field, proof).None?
    requires resolved.outcome == Gap ==> GapShown(rules, ref, check, quote, proof)
    requires outcome == Supported ==> resolved.outcome == Supported
    requires outcome == Gap ==> resolved.outcome == Gap
    requires resolved.outcome == outcome ==> full == resolved.reason
    requires resolved.outcome != outcome ==> resolved.outcome == Supported && CheckObjects(rules, ref.category, resolved, full)
    ensures CheckReasoned(rules, ref, check, quote, proof, outcome, full)
  {
    hide GuardObjects, PriorityObjects, InRow, StripQuote;
  }

  /** Stripping both texts does not change that a citation with visible characters lies in the row's. */
  lemma WithinAgrees(ref: RefRow, check: RefCheck, quote: Option<string>, proof: Option<string>)
    ensures InRow(ref, check, quote, proof) && TextOf(StripQuote(proof)) != "" ==> Within(TextOf(StripQuote(proof)), TextOf(StripQuote(quote)))
  {
    if InRow(ref, check, quote, proof) {
      StrippedWithin(proof.value, quote.value);
    }
    hide Strip, Contains;
  }

  /** What validation makes of the reason of a resolved condition. */
  lemma StagedCheckReason(rules: Rules, profile: Profile, source: string, ref: RefRow, check: RefCheck, quote: Option<string>, proof: Option<string>,
                          row: Row, resolved: Check) returns (full: string)
    requires ValidateCheck(rules, profile, source, row, resolved).Ok?
    requires row.field == ref.field && row.quote == StripQuote(quote) && row.category == ref.category
    requires resolved == Check(check.condition, resolved.outcome, check.field, StripQuote(proof),
                               if resolved.outcome == check.outcome then check.reason else rules.note(ConditionNotShown))
    requires resolved.outcome == Supported <==>
      check.outcome == Supported && InRow(ref, check, quote, proof) && rules.activityIssue(check.condition, ref.category, check.field, proof).None?
    requires resolved.outcome == Gap <==> GapShown(rules, ref, check, quote, proof)
    ensures var c := ValidateCheck(rules, profile, source, row, resolved).value;
      c == Check(check.condition, c.outcome, check.field, StripQuote(proof), if |full| <= 1000 then full else full[..1000])
        && CheckExplained(rules, profile, ref, check, quote, proof, c.outcome, full)
  {
    StrippedText(proof);
    ValidatedCheckIff(rules, profile, source, row, resolved);
    full := ValidatedCheckReason(rules, profile, source, row, resolved);
    WithinAgrees(ref, check, quote, proof);
    hide ValidateCheck, Strip, Contains, Unopposed, StripQuote, InRow, CheckObjects, CheckReasoned, Within, Marked, UnverifiedReason;
    var c := ValidateCheck(rules, profile, source, row, resolved).value;
    var timing := rules.timing(ref.category, check.condition, TextOf(profile.education));
    if timing.None? && !(ref.category == ExperienceRow && rules.zeroRoute(check.condition)) && !(CORRECTION_PREFIX <= full) {
      CheckReasonedByStages(rules, ref, quote, proof, check, resolved, c.outcome, full);
    }
  }

  predicate CheckExplained(rules: Rules, profile: Profile, ref: RefRow, check: RefCheck, quote: Option<string>, proof: Option<string>,
                           outcome: Outcome, full: string)
  {
    var timing := rules.timing(ref.category, check.condition, TextOf(profile.education));
    || CORRECTION_PREFIX <= full
    || if timing.Some? then full == timing.value.0
       else if ref.category == ExperienceRow && rules.zeroRoute(check.condition) then full == rules.note(ZeroYearRoute)
       else CheckReasoned(rules, ref, check, quote, proof, outcome, full)
  }

  /** The final condition in full, but for its outcome. Its reason is cut to 1000 characters. */
  lemma ConditionReason(rules: Rules, payload: Payload, catalog: map<SourceId, SourceSpan>, job: Job, ref: RefRow, i: nat) returns (full: string)
    requires Pipeline(rules, payload, catalog, job, ref).Ok? && i < |ref.checks|
    ensures var final, check := Pipeline(rules, payload, catalog, job, ref).value, ref.checks[i];
      var quote, proof := Shown(catalog, ref.field, ref.range), ProofAt(catalog, ref, i);
      && |final.checks| == |ref.checks|
      && final.checks[i] == Check(check.condition, final.checks[i].outcome, check.field, StripQuote(proof),
                                  if |full| <= 1000 then full else full[..1000])
      && CheckExplained(rules, payload.profile, ref, check, quote, proof, final.checks[i].outcome, full)
  {
    var checks, resolved, guarded := ConditionStages(rules, payload, catalog, job, ref, i);
    var quote, proof := Shown(catalog, ref.field, ref.range), ProofAt(catalog, ref, i);
    hide Pipeline, ValidateCheck, Strip, Shown, ProofAt, Guarded, StripQuote, InRow, GapShown, CheckExplained;
    full := StagedCheckReason(rules, payload.profile, job.description, ref, ref.checks[i], quote, proof, guarded, Cleaned(resolved).checks[i]);
  }
}
