/** The requirement row as the source holds it: an object whose outcome, citation, reason and
    conditions each stage overwrites in place. Every method is tied to the stage function that
    the pipeline theorems are about. */
module RequirementRows {
  import opened Wrappers
  import opened Citations
  import opened Evidence

  class RequirementRow {
    const requirement: string
    const category: Category
    const jdQuote: string
    const op: Option<Operator>
    var outcome: Outcome
    var field: Option<Field>
    var quote: Option<string>
    var reason: string
    var checks: seq<Check>

    function Value(): Row
      reads this
    {
      Row(requirement, category, outcome, jdQuote, field, quote, reason, checks, op)
    }

    constructor (row: Row)
      ensures Value() == row
    {
      requirement, category, jdQuote, op := row.requirement, row.category, row.jdQuote, row.op;
      outcome, field, quote, reason, checks := row.outcome, row.field, row.quote, row.reason, row.checks;
    }

    method Lower(why: string)
      modifies this`outcome, this`reason
      ensures Value() == old(Value()).(outcome := Unknown, reason := why)
    {
      outcome, reason := Unknown, why;
    }

    /** The guards before the conditions: reject the batch, or lower this row in place. */
    method Guard(rules: Rules, profile: Profile, source: string, atomic: bool) returns (ok: bool)
      modifies this
      ensures ok == !Rejected(profile, source, old(Value()))
      ensures Value() == if ok then Guarded(rules, old(Value()), atomic) else old(Value())
    {
      hide Rejected, LowerSubject, LowerGap, LowerCategory;
      if Rejected(profile, source, Value()) {
        return false;
      }
      ok := true;
      GuardSubject(rules, atomic);
      GuardGap(rules);
      GuardCategory(rules, atomic);
    }

    method GuardSubject(rules: Rules, atomic: bool)
      modifies this`outcome, this`reason
      ensures Value() == LowerSubject(rules, old(Value()), atomic)
    {
      if atomic && outcome == Supported {
        var issue := rules.subjectIssue(requirement, category, quote);
        if issue.Some? {
          Lower(issue.value);
        }
      }
    }

    method GuardGap(rules: Rules)
      modifies this`outcome, this`reason
      ensures Value() == LowerGap(rules, old(Value()))
    {
      if outcome == Gap && (TextOf(quote) == "" || !rules.negative(TextOf(quote))) {
        Lower(UnverifiedReason(rules, Value()));
      }
    }

    method GuardCategory(rules: Rules, atomic: bool)
      modifies this`outcome, this`reason
      ensures Value() == LowerCategory(rules, old(Value()), atomic)
    {
      hide AppendReason;
      if outcome == Supported && category == ConstraintRow {
        if rules.availabilityUnproven(field, TextOf(quote), if atomic then requirement else jdQuote) {
          Lower(AppendReason(reason, rules.note(AvailabilityUnproven)));
        }
      }
      if outcome == Supported && category == ExperienceRow {
        if rules.yearsUnproven(requirement, TextOf(quote)) {
          Lower(AppendReason(reason, rules.note(YearsUnproven)));
        }
      }
      if outcome == Supported && category == EducationRow {
        if rules.degreeUnproven(if atomic then requirement else jdQuote, TextOf(quote)) {
          Lower(AppendReason(reason, rules.note(DegreeUnproven)));
        }
      }
    }

    /** `_compound_evidence`. */
    method CheckCompound(rules: Rules, jd: string, promotions: bool)
      modifies this`outcome, this`reason
      ensures Value() == CompoundEvidence(rules, old(Value()), jd, promotions)
    {
      if category != SkillRow {
        return;
      }
      if outcome == Supported && rules.compoundUnmet(jd, TextOf(quote)) {
        Lower(rules.note(OnlyOnePart));
      }
      if promotions && outcome == Unknown && field == Some(Experience) && rules.promotable(jd, TextOf(quote)) {
        outcome, reason := Supported, rules.note(DistillationBranch);
      }
    }

    /** `_construction_evidence`. */
    method CheckConstruction(rules: Rules, jd: string)
      modifies this`outcome, this`reason
      ensures Value() == ConstructionEvidence(rules, old(Value()), jd)
    {
      if outcome != Supported {
        return;
      }
      var missing := rules.construction(requirement, jd, TextOf(quote));
      if missing.Some? {
        Lower(missing.value);
      }
    }

    method CheckActivity(rules: Rules)
      modifies this`outcome, this`reason
      ensures Value() == ActivityEvidence(rules, old(Value()))
    {
      var issue := rules.activityIssue(requirement, category, field, quote);
      if outcome == Supported && issue.Some? {
        Lower(issue.value);
      }
    }

    /** `prioritize_assessment` on this row. */
    method Prioritize(rules: Rules, profile: Profile, atomic: bool, promotions: bool)
      modifies this
      ensures Value() == Prioritized(rules, profile, old(Value()), atomic, promotions)
    {
      hide CompoundEvidence, ConstructionEvidence, ActivityEvidence;
      var jd := if atomic then requirement else jdQuote;
      CheckCompound(rules, jd, promotions);
      CheckConstruction(rules, jd);
      CheckActivity(rules);
      if category == ExperienceRow && rules.zeroRoute(requirement) {
        reason := rules.note(ZeroYearRoute);
      }
      var timing := rules.timing(category, jd, TextOf(profile.education));
      if timing.Some? {
        outcome := if timing.value.1 then Gap else Unknown;
        field, quote, reason := Some(Education), profile.education, timing.value.0;
      }
    }

    /** `correct_unverified_gaps` on this row. */
    method Correct(rules: Rules)
      modifies this`reason
      ensures Value() == Corrected(rules, old(Value()))
    {
      if outcome == Unknown && Marked(reason) {
        reason := UnverifiedReason(rules, Value());
      }
    }

    /** The whole of `validate_assessment` on this row: the guards, then each condition through
        a one-row recursive call, then the operator. */
    method Validate(rules: Rules, profile: Profile, source: string) returns (ok: bool)
      modifies this
      ensures ok == ValidateRow(rules, profile, source, old(Value())).Ok?
      ensures ok ==> Value() == ValidateRow(rules, profile, source, old(Value())).value
    {
      hide Guarded, ValidateCheck, Rejected, Sufficient, AppendReason, Collect;
      ok := Guard(rules, profile, source, false);
      if !ok {
        return;
      }
      ghost var guarded := Value();
      ok := ValidateConditions(rules, profile, source);
      if !ok {
        return;
      }
      if outcome == Supported && checks != [] && op.Some? {
        if !Sufficient(op.value, checks) {
          Lower(AppendReason(reason, rules.note(AtomsInsufficient)));
        }
      }
    }

    /** The loop over the conditions; it stops at the first rejected one. */
    method ValidateConditions(rules: Rules, profile: Profile, source: string) returns (ok: bool)
      modifies this`checks
      ensures ok == ValidateChecks(rules, profile, source, old(Value())).Ok?
      ensures ok ==> Value() == old(Value()).(checks := ValidateChecks(rules, profile, source, old(Value())).value)
    {
      hide ValidateCheck;
      ghost var row := Value();
      ghost var results := CheckResults(rules, profile, source, row);
      var i := 0;
      while i < |checks|
        invariant 0 <= i <= |checks| == |row.checks|
        invariant Value() == row.(checks := checks) && checks[i..] == row.checks[i..]
        invariant Collect(results[..i]) == Ok(checks[..i])
      {
        var check := checks[i];
        assert check == checks[i..][0] == row.checks[i..][0] == row.checks[i];
        var validated := ValidateCondition(rules, profile, source, check);
        ValidateCheckIgnoresChecks(rules, profile, source, Value(), row.checks, check);
        assert results[i] == match validated case Some(c) => Ok(c) case None => Err(InvalidEvidence);
        CollectStep(results, i, checks[..i]);
        if validated.None? {
          CollectStops(results, i);
          return false;
        }
        assert checks[..i] + [validated.value] == checks[i := validated.value][..i + 1];
        checks := checks[i := validated.value];
        i := i + 1;
      }
      assert results[..i] == results && checks[..i] == checks;
      ok := true;
    }

    /** One condition: a fresh one-row object goes through the guards, prioritizing and
        correction, and its outcome counts only if its citation lies within this row's. */
    method ValidateCondition(rules: Rules, profile: Profile, source: string, check: Check) returns (r: Option<Check>)
      ensures match ValidateCheck(rules, profile, source, Value(), check)
              case Err(e) => r == None && e == InvalidEvidence
              case Ok(c) => r == Some(c)
    {
      hide Guarded, Prioritized, Corrected, Rejected;
      var atom := new RequirementRow(Cleaned(Atom(Value(), check)));
      var ok := atom.Guard(rules, profile, source, true);
      if !ok {
        return None;
      }
      atom.Prioritize(rules, profile, true, false);
      atom.Correct(rules);
      var child := atom.Value();
      var shown := child.field == field && TextOf(child.quote) != "" && TextOf(quote) != ""
        && Text.Contains(TextOf(child.quote), TextOf(quote));
      r := Some(check.(outcome := if shown then child.outcome else Unknown, reason := Cut(child.reason, 1000)));
    }
  }

  lemma ValidateCheckIgnoresChecks(rules: Rules, profile: Profile, source: string, row: Row, checks: seq<Check>, check: Check)
    ensures ValidateCheck(rules, profile, source, row, check) == ValidateCheck(rules, profile, source, row.(checks := checks), check)
  {
    hide Guarded, Prioritized, Corrected, Rejected, Text.Contains;
    assert Atom(row, check) == Atom(row.(checks := checks), check);
  }

  lemma CollectStep(results: seq<Result<Check, EvidenceError>>, i: nat, done: seq<Check>)
    requires i < |results| && Collect(results[..i]) == Ok(done)
    ensures Collect(results[..i + 1]) == match results[i] case Err(e) => Err(e) case Ok(c) => Ok(done + [c])
  {
    assert results[..i + 1][..i] == results[..i];
  }

  lemma {:induction false} CollectStops(results: seq<Result<Check, EvidenceError>>, i: nat)
    requires i < |results| && Collect(results[..i + 1]).Err?
    ensures Collect(results).Err?
    decreases |results|
  {
    if i + 1 == |results| {
      assert results[..i + 1] == results;
    } else {
      assert results[..|results| - 1][..i + 1] == results[..i + 1];
      CollectStops(results[..|results| - 1], i);
    }
  }
}
