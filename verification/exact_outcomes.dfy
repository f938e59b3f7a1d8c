/** Exactly which outcomes come out of the four evidence stages, in terms of the text rules and of
    the row's own texts. */
module ExactOutcomes {
  import opened Text
  import opened Wrappers
  import opened Citations
  import opened Evidence
  import opened EvidenceTheorems

  // ----- what speaks for and against a requirement

  /** The resolved passage of the posting, the row's quotation and a condition's quotation. */
  function Passage(catalog: map<SourceId, SourceSpan>, owner: string, ref: RefRow): string {
    var r := Resolve(Some(ref.jdRange), catalog, JobScope, owner, Some(Description));
    if r.Ok? then TextOf(r.value) else ""
  }

  function Shown(catalog: map<SourceId, SourceSpan>, field: Option<Field>, range: Option<Range>): Option<string> {
    var r := ProfileQuote(field, range, catalog);
    if r.Ok? then r.value else None
  }

  /** Nothing in validation or prioritizing speaks against support. `wanted` is the employer text
      that is read: the cited passage for a row, its own words for a condition. */
  predicate Unopposed(rules: Rules, profile: Profile, category: Category, requirement: string, wanted: string, field: Option<Field>, quote: Option<string>) {
    && (category == ConstraintRow ==> !rules.availabilityUnproven(field, TextOf(quote), wanted))
    && (category == ExperienceRow ==> !rules.yearsUnproven(requirement, TextOf(quote)))
    && (category == EducationRow ==> !rules.degreeUnproven(wanted, TextOf(quote)))
    && (category == SkillRow ==> !rules.compoundUnmet(wanted, TextOf(quote)))
    && rules.construction(requirement, wanted, TextOf(quote)).None?
    && rules.activityIssue(requirement, category, field, quote).None?
    && rules.timing(category, wanted, TextOf(profile.education)).None?
  }

  /** The row's own part of support: the model said so, its wording and citation are in scope, and
      nothing opposes it. */
  predicate RowHolds(rules: Rules, profile: Profile, ref: RefRow, passage: string, quote: Option<string>) {
    && ref.outcome == Supported
    && rules.compoundScope(ref.requirement, ref.op, ref.category).None?
    && rules.activityIssue(ref.requirement, ref.category, ref.field, quote).None?
    && Unopposed(rules, profile, ref.category, ref.requirement, Strip(passage), ref.field, StripQuote(quote))
  }

  /** A condition's citation lies in the row's, from the same field. */
  predicate InRow(ref: RefRow, check: RefCheck, quote: Option<string>, proof: Option<string>) {
    check.field == ref.field && quote.Some? && proof.Some? && Contains(proof.value, quote.value)
  }

  /** The same for one condition, with its own words throughout. */
  predicate CheckHolds(rules: Rules, profile: Profile, ref: RefRow, check: RefCheck, quote: Option<string>, proof: Option<string>) {
    && check.outcome == Supported && InRow(ref, check, quote, proof)
    && rules.activityIssue(check.condition, ref.category, check.field, proof).None?
    && rules.subjectIssue(check.condition, ref.category, StripQuote(proof)).None?
    && Unopposed(rules, profile, ref.category, check.condition, check.condition, check.field, StripQuote(proof))
  }

  /** The conditions suffice under the operator. */
  predicate Meets(op: Operator, checks: seq<Check>) {
    match op
    case Atomic => forall i :: 0 <= i < |checks| ==> checks[i].outcome == Supported
    case AllOf => forall i :: 0 <= i < |checks| ==> checks[i].outcome == Supported
    case AnyOf => exists i :: 0 <= i < |checks| && checks[i].outcome == Supported
    case Unspecified => false
  }

  /** A gap the model claims for a condition, shown within the row and stated outright. */
  predicate GapShown(rules: Rules, ref: RefRow, check: RefCheck, quote: Option<string>, proof: Option<string>) {
    && check.outcome == Gap && InRow(ref, check, quote, proof)
    && rules.activityIssue(check.condition, ref.category, check.field, proof).None?
    && TextOf(proof) != "" && rules.negative(TextOf(proof))
  }

  /** A gap the model claims without a negative statement in its quotation. */
  predicate GapBare(rules: Rules, check: RefCheck, proof: Option<string>) {
    check.outcome == Gap && !(TextOf(proof) != "" && rules.negative(TextOf(proof)))
  }

  // ----- stage by stage

  lemma GuardedIff(rules: Rules, row: Row, atomic: bool)
    ensures var g := Guarded(rules, row, atomic); var wanted := if atomic then row.requirement else row.jdQuote;
      && (g.outcome == Supported <==>
            && row.outcome == Supported
            && (atomic ==> rules.subjectIssue(row.requirement, row.category, row.quote).None?)
            && (row.category == ConstraintRow ==> !rules.availabilityUnproven(row.field, TextOf(row.quote), wanted))
            && (row.category == ExperienceRow ==> !rules.yearsUnproven(row.requirement, TextOf(row.quote)))
            && (row.category == EducationRow ==> !rules.degreeUnproven(wanted, TextOf(row.quote))))
      && (g.outcome == Gap <==> row.outcome == Gap && TextOf(row.quote) != "" && rules.negative(TextOf(row.quote)))
      && g == row.(outcome := g.outcome, reason := g.reason)
  {
    hide AppendReason, UnverifiedReason;
    SubjectIff(rules, row, atomic);
    var a := LowerSubject(rules, row, atomic);
    GapGuardIff(rules, a);
    var b := LowerGap(rules, a);
    CategoryIff(rules, b, atomic);
    hide LowerSubject, LowerGap, LowerCategory;
  }

  lemma SubjectIff(rules: Rules, row: Row, atomic: bool)
    ensures var g := LowerSubject(rules, row, atomic);
      && (g.outcome == Supported <==>
            row.outcome == Supported && (atomic ==> rules.subjectIssue(row.requirement, row.category, row.quote).None?))
      && (g.outcome == Gap <==> row.outcome == Gap) && g == row.(outcome := g.outcome, reason := g.reason)
  {
  }

  lemma GapGuardIff(rules: Rules, row: Row)
    ensures var g := LowerGap(rules, row);
      && (g.outcome == Supported <==> row.outcome == Supported)
      && (g.outcome == Gap <==> row.outcome == Gap && TextOf(row.quote) != "" && rules.negative(TextOf(row.quote)))
      && g == row.(outcome := g.outcome, reason := g.reason)
  {
  }

  lemma CategoryIff(rules: Rules, row: Row, atomic: bool)
    ensures var g := LowerCategory(rules, row, atomic); var wanted := if atomic then row.requirement else row.jdQuote;
      && (g.outcome == Supported <==>
            && row.outcome == Supported
            && (row.category == ConstraintRow ==> !rules.availabilityUnproven(row.field, TextOf(row.quote), wanted))
            && (row.category == ExperienceRow ==> !rules.yearsUnproven(row.requirement, TextOf(row.quote)))
            && (row.category == EducationRow ==> !rules.degreeUnproven(wanted, TextOf(row.quote))))
      && (g.outcome == Gap <==> row.outcome == Gap) && g == row.(outcome := g.outcome, reason := g.reason)
  {
    hide AppendReason;
  }

  lemma PrioritizedIff(rules: Rules, profile: Profile, row: Row, atomic: bool)
    ensures var p := Prioritized(rules, profile, row, atomic, false); var wanted := if atomic then row.requirement else row.jdQuote;
      var timing := rules.timing(row.category, wanted, TextOf(profile.education));
      && (p.outcome == Supported <==>
            && row.outcome == Supported && timing.None?
            && (row.category == SkillRow ==> !rules.compoundUnmet(wanted, TextOf(row.quote)))
            && rules.construction(row.requirement, wanted, TextOf(row.quote)).None?
            && rules.activityIssue(row.requirement, row.category, row.field, row.quote).None?)
      && (p.outcome == Gap <==> if timing.Some? then timing.value.1 else row.outcome == Gap)
      && (if timing.Some? then p.field == Some(Education) && p.quote == profile.education
          else p.field == row.field && p.quote == row.quote)
      && p.checks == row.checks
  {
    var wanted := if atomic then row.requirement else row.jdQuote;
    var a := CompoundEvidence(rules, row, wanted, false);
    CompoundIff(rules, row, wanted);
    ConstructionIff(rules, a, wanted);
    var b := ConstructionEvidence(rules, a, wanted);
    ActivityIff(rules, b);
    hide CompoundEvidence, ConstructionEvidence, ActivityEvidence;
  }

  lemma CompoundIff(rules: Rules, row: Row, wanted: string)
    ensures var p := CompoundEvidence(rules, row, wanted, false);
      && (p.outcome == Supported <==> row.outcome == Supported && (row.category == SkillRow ==> !rules.compoundUnmet(wanted, TextOf(row.quote))))
      && (p.outcome == Gap <==> row.outcome == Gap) && p == row.(outcome := p.outcome, reason := p.reason)
  {
  }

  lemma ConstructionIff(rules: Rules, row: Row, wanted: string)
    ensures var p := ConstructionEvidence(rules, row, wanted);
      && (p.outcome == Supported <==> row.outcome == Supported && rules.construction(row.requirement, wanted, TextOf(row.quote)).None?)
      && (p.outcome == Gap <==> row.outcome == Gap) && p == row.(outcome := p.outcome, reason := p.reason)
  {
  }

  lemma ActivityIff(rules: Rules, row: Row)
    ensures var p := ActivityEvidence(rules, row);
      && (p.outcome == Supported <==> row.outcome == Supported && rules.activityIssue(row.requirement, row.category, row.field, row.quote).None?)
      && (p.outcome == Gap <==> row.outcome == Gap) && p == row.(outcome := p.outcome, reason := p.reason)
  {
  }

  /** With promotions on, what `_compound_evidence` newly supports. */
  lemma PromotionIff(rules: Rules, row: Row, wanted: string)
    ensures var plain, promoted := CompoundEvidence(rules, row, wanted, false), CompoundEvidence(rules, row, wanted, true);
      && (promoted.outcome == Supported && plain.outcome != Supported <==>
            && row.category == SkillRow && row.field == Some(Experience) && rules.promotable(wanted, TextOf(row.quote))
            && (row.outcome == Unknown || (row.outcome == Supported && rules.compoundUnmet(wanted, TextOf(row.quote)))))
      && (promoted.outcome != plain.outcome ==> promoted.outcome == Supported)
  {
  }

  /** What resolving makes of one condition. */
  lemma ResolvedCheckIff(rules: Rules, catalog: map<SourceId, SourceSpan>, ref: RefRow, check: RefCheck, quote: Option<string>)
    requires ResolveCheck(rules, catalog, check, ref.category, ref.field, quote).Ok?
    ensures var r := ResolveCheck(rules, catalog, check, ref.category, ref.field, quote).value; var proof := Shown(catalog, check.field, check.range);
      && r == Check(check.condition, r.outcome, check.field, proof, r.reason)
      && (r.outcome == Supported <==>
            check.outcome == Supported && InRow(ref, check, quote, proof)
            && rules.activityIssue(check.condition, ref.category, check.field, proof).None?)
      && (r.outcome == Gap <==> GapShown(rules, ref, check, quote, proof))
      && r.reason == if r.outcome == check.outcome then check.reason else rules.note(ConditionNotShown)
  {
    hide ProfileQuote, Contains;
  }

  lemma ResolvedChecksIff(rules: Rules, catalog: map<SourceId, SourceSpan>, ref: RefRow, quote: Option<string>, i: nat)
    requires ResolveChecks(rules, catalog, ref.checks, ref.category, ref.field, quote).Ok? && i < |ref.checks|
    ensures var checks := ResolveChecks(rules, catalog, ref.checks, ref.category, ref.field, quote).value;
      |checks| == |ref.checks| && ResolveCheck(rules, catalog, ref.checks[i], ref.category, ref.field, quote) == Ok(checks[i])
  {
    hide ResolveCheck;
  }

  predicate GapsMeet(op: Operator, checks: seq<Check>) {
    match op
    case Atomic => exists i :: 0 <= i < |checks| && checks[i].outcome == Gap
    case AllOf => exists i :: 0 <= i < |checks| && checks[i].outcome == Gap
    case AnyOf => forall i :: 0 <= i < |checks| ==> checks[i].outcome == Gap
    case Unspecified => false
  }

  lemma AggregateIff(op: Operator, checks: seq<Check>)
    ensures Aggregate(op, checks) == Supported <==> Meets(op, checks)
    ensures Aggregate(op, checks) == Gap <==> GapsMeet(op, checks) && !(op.AnyOf? && Meets(op, checks))
    ensures op.AnyOf? && Meets(op, checks) ==> !GapsMeet(op, checks)
    ensures Sufficient(op, checks) <==> Meets(op, checks)
  {
  }

  predicate SomeBare(rules: Rules, ref: RefRow, checks: seq<Check>) {
    exists i :: 0 <= i < |ref.checks| && i < |checks| && GapBare(rules, ref.checks[i], checks[i].quote)
  }

  /** What resolving makes of the row, from its resolved conditions. */
  lemma ResolvedRowIff(rules: Rules, ref: RefRow, passage: string, quote: Option<string>, checks: seq<Check>)
    ensures var r := ResolvedRow(rules, ref, passage, quote, checks);
      && (r.outcome == Supported <==>
            && ref.outcome == Supported && Meets(ref.op, checks)
            && rules.compoundScope(ref.requirement, ref.op, ref.category).None?
            && rules.activityIssue(ref.requirement, ref.category, ref.field, quote).None?)
      && (r.outcome == Gap <==> ref.outcome == Gap && !SomeBare(rules, ref, checks) && GapsMeet(ref.op, checks))
      && r == Row(ref.requirement, ref.category, r.outcome, passage, ref.field, quote, r.reason, checks, Some(ref.op))
  {
    hide SuffixReason, UnverifiedReason;
    BareIff(rules, ref, checks);
    AggregateIff(ref.op, checks);
    hide Aggregate, Meets, GapsMeet, SomeBare, UnprovenGap;
  }

  lemma BareIff(rules: Rules, ref: RefRow, checks: seq<Check>)
    ensures SomeBare(rules, ref, checks) <==>
      exists i :: 0 <= i < |ref.checks| && i < |checks| && UnprovenGap(rules, ref.checks[i].outcome, checks[i].quote)
  {
    if i :| 0 <= i < |ref.checks| && i < |checks| && UnprovenGap(rules, ref.checks[i].outcome, checks[i].quote) {
      assert GapBare(rules, ref.checks[i], checks[i].quote);
    }
  }

  // ----- one condition through the recursion

  /** The outcome of the one-row batch of a condition. */
  lemma AtomIff(rules: Rules, profile: Profile, source: string, atom: Row)
    requires ValidateAtom(rules, profile, source, atom).Ok?
    ensures var child := ValidateAtom(rules, profile, source, atom).value;
      var timing := rules.timing(atom.category, atom.requirement, TextOf(profile.education));
      && (child.outcome == Supported <==>
            && atom.outcome == Supported
            && rules.subjectIssue(atom.requirement, atom.category, atom.quote).None?
            && Unopposed(rules, profile, atom.category, atom.requirement, atom.requirement, atom.field, atom.quote))
      && (child.outcome == Gap <==>
            if timing.Some? then timing.value.1 else atom.outcome == Gap && TextOf(atom.quote) != "" && rules.negative(TextOf(atom.quote)))
      && (if timing.Some? then child.field == Some(Education) && child.quote == profile.education
          else child.field == atom.field && child.quote == atom.quote)
  {
    GuardedIff(rules, atom, true);
    var g := Guarded(rules, atom, true);
    PrioritizedIff(rules, profile, g, true);
    hide Guarded, Prioritized, UnverifiedReason, Marked, Rejected;
  }

  lemma SupportedAtomShown(rules: Rules, profile: Profile, source: string, atom: Row)
    requires ValidateAtom(rules, profile, source, atom).Ok? && atom.outcome == Supported
    ensures TextOf(atom.quote) != ""
  {
  }

  predicate Within(inner: string, outer: string) {
    inner != "" && outer != "" && Contains(inner, outer)
  }

  lemma ValidatedCheckIff(rules: Rules, profile: Profile, source: string, row: Row, check: Check)
    requires ValidateCheck(rules, profile, source, row, check).Ok?
    ensures var c := ValidateCheck(rules, profile, source, row, check).value;
      var text := TextOf(StripQuote(check.quote));
      var timing := rules.timing(row.category, check.condition, TextOf(profile.education));
      && (c.outcome == Supported <==>
            && check.outcome == Supported && check.field == row.field && Within(text, TextOf(row.quote))
            && rules.subjectIssue(check.condition, row.category, StripQuote(check.quote)).None?
            && Unopposed(rules, profile, row.category, check.condition, check.condition, check.field, StripQuote(check.quote)))
      && (c.outcome == Gap <==>
            if timing.Some? then timing.value.1 && row.field == Some(Education) && Within(TextOf(profile.education), TextOf(row.quote))
            else check.outcome == Gap && check.field == row.field && Within(text, TextOf(row.quote)) && rules.negative(text))
      && (check.outcome == Supported ==> text != "")
  {
    var atom := Cleaned(Atom(row, check));
    AtomIff(rules, profile, source, atom);
    if check.outcome == Supported {
      SupportedAtomShown(rules, profile, source, atom);
    }
    hide ValidateAtom, Contains, Strip, Unopposed;
  }

  // ----- stripping and containment

  lemma StrippedWithin(inner: string, outer: string)
    ensures Strip(inner) != "" ==> (Within(Strip(inner), Strip(outer)) <==> Contains(inner, outer))
  {
    StripKeepsNormal(inner);
    StripKeepsNormal(outer);
    if Strip(inner) != "" && Contains(inner, outer) {
      NotBlankNormal(inner);
      hide Strip, Normal;
      if Strip(outer) == "" {
        NothingInBlank(inner, outer);
      }
    }
    hide Strip, Normal;
  }

  lemma NotBlankNormal(s: string)
    ensures Normal(s) == "" <==> Strip(s) == ""
  {
    NoWordsIffAllSpace(s);
    var a, b := StripIsSlice(s);
    hide Strip, Normal, Words, AllSpace;
  }

  lemma NothingInBlank(inner: string, outer: string)
    requires Strip(outer) == "" && Contains(inner, outer)
    ensures Normal(inner) == ""
  {
    NotBlankNormal(outer);
    hide Normal, Strip;
    var i :| 0 <= i <= |Normal(outer)| && At(Normal(inner), Normal(outer), i);
  }

  // ----- the whole pipeline

  /** A condition that ends a gap: explicit education dates shown by the row, or the model's own gap,
      shown within the row and stated outright. */
  predicate CheckGapHolds(rules: Rules, profile: Profile, ref: RefRow, check: RefCheck, quote: Option<string>, proof: Option<string>) {
    var timing := rules.timing(ref.category, check.condition, TextOf(profile.education));
    if timing.Some? then
      timing.value.1 && ref.field == Some(Education) && Within(TextOf(profile.education), TextOf(StripQuote(quote)))
    else
      GapShown(rules, ref, check, quote, proof) && Strip(TextOf(proof)) != "" && rules.negative(Strip(TextOf(proof)))
  }

  /** The conditions add up to a gap under the operator. */
  ghost predicate GapOperator(rules: Rules, catalog: map<SourceId, SourceSpan>, ref: RefRow, quote: Option<string>) {
    match ref.op
    case Unspecified => false
    case AnyOf => forall i :: 0 <= i < |ref.checks| ==> GapShown(rules, ref, ref.checks[i], quote, ProofAt(catalog, ref, i))
    case _ => exists i :: 0 <= i < |ref.checks| && GapShown(rules, ref, ref.checks[i], quote, ProofAt(catalog, ref, i))
  }

  function ProofAt(catalog: map<SourceId, SourceSpan>, ref: RefRow, i: nat): Option<string>
    requires i < |ref.checks|
  {
    Shown(catalog, ref.checks[i].field, ref.checks[i].range)
  }

  /** A row that ends a gap: explicit education dates, or the model's own gap, borne out by its
      conditions, none of them bare, with a negative statement in its quotation. */
  ghost predicate RowGapHolds(rules: Rules, profile: Profile, catalog: map<SourceId, SourceSpan>, ref: RefRow, passage: string, quote: Option<string>) {
    var timing := rules.timing(ref.category, Strip(passage), TextOf(profile.education));
    if timing.Some? then timing.value.1
    else
      && ref.outcome == Gap && GapOperator(rules, catalog, ref, quote)
      && (forall i :: 0 <= i < |ref.checks| ==> !GapBare(rules, ref.checks[i], ProofAt(catalog, ref, i)))
      && Strip(TextOf(quote)) != "" && rules.negative(Strip(TextOf(quote)))
  }

  /** The resolved row of a run that is not rejected. */
  lemma Resolves(rules: Rules, catalog: map<SourceId, SourceSpan>, owner: string, ref: RefRow) returns (checks: seq<Check>)
    requires ResolveRow(rules, catalog, owner, ref).Ok?
    ensures var quote := Shown(catalog, ref.field, ref.range);
      && ResolveChecks(rules, catalog, ref.checks, ref.category, ref.field, quote) == Ok(checks)
      && ResolveRow(rules, catalog, owner, ref) == Ok(ResolvedRow(rules, ref, Passage(catalog, owner, ref), quote, checks))
  {
    hide Resolve, ProfileQuote, ResolveChecks, ResolvedRow;
    checks := ResolveChecks(rules, catalog, ref.checks, ref.category, ref.field, Shown(catalog, ref.field, ref.range)).value;
  }

  /** The validated row of a run that is not rejected, and its conditions. */
  lemma Validates(rules: Rules, profile: Profile, source: string, row: Row) returns (checks: seq<Check>)
    requires ValidateRow(rules, profile, source, row).Ok?
    ensures var guarded := Guarded(rules, row, false);
      && ValidateRow(rules, profile, source, row) == Ok(ApplyOperator(rules, guarded.(checks := checks)))
      && guarded.checks == row.checks && |checks| == |row.checks|
      && forall i :: 0 <= i < |checks| ==> ValidateCheck(rules, profile, source, guarded, row.checks[i]) == Ok(checks[i])
  {
    GuardedIff(rules, row, false);
    hide Guarded, ValidateCheck, ApplyOperator, Rejected;
    checks := ValidateChecks(rules, profile, source, Guarded(rules, row, false)).value;
  }

  lemma ApplyOperatorIff(rules: Rules, row: Row)
    requires row.op.Some?
    ensures var r := ApplyOperator(rules, row);
      && (r.outcome == Supported <==> row.outcome == Supported && (row.checks == [] || Meets(row.op.value, row.checks)))
      && (r.outcome == Gap <==> row.outcome == Gap) && r == row.(outcome := r.outcome, reason := r.reason)
  {
    AggregateIff(row.op.value, row.checks);
    hide AppendReason, Sufficient, Meets;
  }

  /** One stage after the other, for the row itself. */
  lemma FinalIff(rules: Rules, profile: Profile, source: string, resolved: Row) returns (checks: seq<Check>)
    requires resolved.op.Some? && ValidateRow(rules, profile, source, Cleaned(resolved)).Ok?
    ensures |checks| == |resolved.checks|
    ensures var valid := ValidateRow(rules, profile, source, Cleaned(resolved)).value;
      var final := Corrected(rules, Prioritized(rules, profile, valid, false, false)); var row := Cleaned(resolved);
      var timing := rules.timing(row.category, row.jdQuote, TextOf(profile.education));
      && final.checks == checks
      && (final.outcome == Supported <==>
            && row.outcome == Supported && (checks == [] || Meets(row.op.value, checks))
            && Unopposed(rules, profile, row.category, row.requirement, row.jdQuote, row.field, row.quote))
      && (final.outcome == Gap <==>
            if timing.Some? then timing.value.1 else row.outcome == Gap && TextOf(row.quote) != "" && rules.negative(TextOf(row.quote)))
    ensures forall i :: 0 <= i < |checks| ==>
      ValidateCheck(rules, profile, source, Guarded(rules, Cleaned(resolved), false), Cleaned(resolved).checks[i]) == Ok(checks[i])
  {
    var row := Cleaned(resolved);
    checks := Validates(rules, profile, source, row);
    GuardedIff(rules, row, false);
    var guarded := Guarded(rules, row, false).(checks := checks);
    ApplyOperatorIff(rules, guarded);
    PrioritizedIff(rules, profile, ApplyOperator(rules, guarded), false);
    hide Guarded, Prioritized, ApplyOperator, ValidateRow, ValidateCheck, Cleaned, Meets, UnverifiedReason, Marked;
  }

  /** A row is supported in the end exactly when the model said so, its conditions suffice, and none
      of the server's rules applies, each at the text that it reads. */
  lemma RowSupportedIff(rules: Rules, payload: Payload, catalog: map<SourceId, SourceSpan>, job: Job, ref: RefRow)
    requires Pipeline(rules, payload, catalog, job, ref).Ok?
    ensures var final := Pipeline(rules, payload, catalog, job, ref).value;
      final.outcome == Supported <==>
        RowHolds(rules, payload.profile, ref, Passage(catalog, job.id, ref), Shown(catalog, ref.field, ref.range)) && Meets(ref.op, final.checks)
  {
    var passage, quote := Passage(catalog, job.id, ref), Shown(catalog, ref.field, ref.range);
    var resolvedChecks := Resolves(rules, catalog, job.id, ref);
    var resolved := ResolvedRow(rules, ref, passage, quote, resolvedChecks);
    ResolvedRowIff(rules, ref, passage, quote, resolvedChecks);
    var checks := FinalIff(rules, payload.profile, job.description, resolved);
    ChecksOnlyFall(rules, payload.profile, job.description, resolved, checks);
    MeetsFalls(ref.op, resolvedChecks, checks);
    hide Resolve, ProfileQuote, ResolveRow, ResolvedRow, ValidateRow, ValidateCheck, Guarded, Prioritized, Corrected, Meets, Unopposed, Passage, Shown;
  }

  lemma ChecksOnlyFall(rules: Rules, profile: Profile, source: string, resolved: Row, checks: seq<Check>)
    requires |checks| == |resolved.checks|
    requires forall i :: 0 <= i < |checks| ==>
      ValidateCheck(rules, profile, source, Guarded(rules, Cleaned(resolved), false), Cleaned(resolved).checks[i]) == Ok(checks[i])
    ensures forall i :: 0 <= i < |checks| ==> (checks[i].outcome == Supported ==> resolved.checks[i].outcome == Supported)
  {
    var guarded := Guarded(rules, Cleaned(resolved), false);
    hide Guarded, ValidateCheck;
    forall i | 0 <= i < |checks|
      ensures checks[i].outcome == Supported ==> resolved.checks[i].outcome == Supported
    {
      ValidatedCheckIff(rules, profile, source, guarded, Cleaned(resolved).checks[i]);
    }
  }

  lemma MeetsFalls(op: Operator, before: seq<Check>, after: seq<Check>)
    requires |before| == |after|
    requires forall i :: 0 <= i < |after| ==> (after[i].outcome == Supported ==> before[i].outcome == Supported)
    ensures Meets(op, after) ==> Meets(op, before)
    ensures after == [] ==> (Meets(op, after) <==> Meets(op, before))
  {
  }

  /** A condition is supported in the end exactly when the model said so, its citation lies in the
      row's, and none of the rules applies to its own words. */
  lemma ConditionSupportedIff(rules: Rules, payload: Payload, catalog: map<SourceId, SourceSpan>, job: Job, ref: RefRow, i: nat)
    requires Pipeline(rules, payload, catalog, job, ref).Ok? && i < |ref.checks|
    ensures var final := Pipeline(rules, payload, catalog, job, ref).value;
      && |final.checks| == |ref.checks|
      && (final.checks[i].outcome == Supported <==>
            CheckHolds(rules, payload.profile, ref, ref.checks[i], Shown(catalog, ref.field, ref.range), ProofAt(catalog, ref, i)))
  {
    var checks, resolved, guarded := ConditionStages(rules, payload, catalog, job, ref, i);
    var quote, proof := Shown(catalog, ref.field, ref.range), ProofAt(catalog, ref, i);
    var check := Cleaned(resolved).checks[i];
    ValidatedCheckIff(rules, payload.profile, job.description, guarded, check);
    if proof.Some? && quote.Some? {
      StripTwice(proof.value);
      StrippedWithin(proof.value, quote.value);
    }
    StripEmpty();
    hide Pipeline, ValidateCheck, Strip, Contains, Unopposed, Shown, ProofAt, Guarded;
  }

  /** What the stages make of condition i. */
  lemma ConditionStages(rules: Rules, payload: Payload, catalog: map<SourceId, SourceSpan>, job: Job, ref: RefRow, i: nat)
    returns (checks: seq<Check>, resolved: Row, guarded: Row)
    requires Pipeline(rules, payload, catalog, job, ref).Ok? && i < |ref.checks|
    ensures Pipeline(rules, payload, catalog, job, ref).value.checks == checks && |checks| == |resolved.checks| == |ref.checks|
    ensures guarded == Guarded(rules, Cleaned(resolved), false)
    ensures guarded.field == ref.field && guarded.quote == StripQuote(Shown(catalog, ref.field, ref.range)) && guarded.category == ref.category
    ensures ValidateCheck(rules, payload.profile, job.description, guarded, Cleaned(resolved).checks[i]) == Ok(checks[i])
    ensures var quote, proof := Shown(catalog, ref.field, ref.range), ProofAt(catalog, ref, i); var r := resolved.checks[i];
      && r.condition == ref.checks[i].condition && r.field == ref.checks[i].field && r.quote == proof
      && (r.outcome == Supported <==>
            ref.checks[i].outcome == Supported && InRow(ref, ref.checks[i], quote, proof)
            && rules.activityIssue(ref.checks[i].condition, ref.category, ref.checks[i].field, proof).None?)
      && (r.outcome == Gap <==> GapShown(rules, ref, ref.checks[i], quote, proof))
      && r.reason == if r.outcome == ref.checks[i].outcome then ref.checks[i].reason else rules.note(ConditionNotShown)
  {
    var passage, quote := Passage(catalog, job.id, ref), Shown(catalog, ref.field, ref.range);
    var resolvedChecks := Resolves(rules, catalog, job.id, ref);
    resolved := ResolvedRow(rules, ref, passage, quote, resolvedChecks);
    ResolvedRowIff(rules, ref, passage, quote, resolvedChecks);
    ResolvedChecksIff(rules, catalog, ref, quote, i);
    ResolvedCheckIff(rules, catalog, ref, ref.checks[i], quote);
    checks := FinalIff(rules, payload.profile, job.description, resolved);
    guarded := Guarded(rules, Cleaned(resolved), false);
    GuardedIff(rules, Cleaned(resolved), false);
    hide Resolve, ProfileQuote, ResolveRow, ResolvedRow, ResolveCheck, ResolveChecks, ValidateRow, ValidateCheck, Guarded, Prioritized, Corrected,
      InRow, GapShown, Passage, Shown, Strip;
  }

  /** A condition ends a gap exactly when explicit education dates make it one, or the model's own gap
      is shown and stated. */
  lemma ConditionGapIff(rules: Rules, payload: Payload, catalog: map<SourceId, SourceSpan>, job: Job, ref: RefRow, i: nat)
    requires Pipeline(rules, payload, catalog, job, ref).Ok? && i < |ref.checks|
    ensures var final := Pipeline(rules, payload, catalog, job, ref).value;
      && |final.checks| == |ref.checks|
      && (final.checks[i].outcome == Gap <==>
            CheckGapHolds(rules, payload.profile, ref, ref.checks[i], Shown(catalog, ref.field, ref.range), ProofAt(catalog, ref, i)))
  {
    var checks, resolved, guarded := ConditionStages(rules, payload, catalog, job, ref, i);
    var quote, proof := Shown(catalog, ref.field, ref.range), ProofAt(catalog, ref, i);
    var check := Cleaned(resolved).checks[i];
    ValidatedCheckIff(rules, payload.profile, job.description, guarded, check);
    StrippedText(proof);
    StrippedText(quote);
    hide Pipeline, ValidateCheck, Strip, Contains, Unopposed, Shown, ProofAt, Guarded, StripQuote, Within;
    if GapShown(rules, ref, ref.checks[i], quote, proof) {
      StrippedWithin(proof.value, quote.value);
      WithinMeans(Strip(proof.value), Strip(quote.value));
    }
  }

  lemma WithinMeans(inner: string, outer: string)
    ensures Within(inner, outer) ==> inner != ""
  {
  }

  lemma StrippedText(text: Option<string>)
    ensures TextOf(StripQuote(text)) == Strip(TextOf(text)) && StripQuote(StripQuote(text)) == StripQuote(text)
  {
    StripEmpty();
    StripTwice(TextOf(text));
    hide Strip;
  }

  /** A row ends a gap exactly when explicit education dates make it one, or the model's own gap is
      borne out by its conditions and stated. Every other row ends unknown. */
  lemma RowGapIff(rules: Rules, payload: Payload, catalog: map<SourceId, SourceSpan>, job: Job, ref: RefRow)
    requires Pipeline(rules, payload, catalog, job, ref).Ok?
    ensures Pipeline(rules, payload, catalog, job, ref).value.outcome == Gap <==>
      RowGapHolds(rules, payload.profile, catalog, ref, Passage(catalog, job.id, ref), Shown(catalog, ref.field, ref.range))
  {
    var passage, quote := Passage(catalog, job.id, ref), Shown(catalog, ref.field, ref.range);
    var resolvedChecks := Resolves(rules, catalog, job.id, ref);
    var resolved := ResolvedRow(rules, ref, passage, quote, resolvedChecks);
    ResolvedRowIff(rules, ref, passage, quote, resolvedChecks);
    ResolvedGaps(rules, catalog, ref, quote, resolvedChecks);
    var checks := FinalIff(rules, payload.profile, job.description, resolved);
    StripEmpty();
    hide Resolve, ProfileQuote, ResolveRow, ResolvedRow, ValidateRow, ValidateCheck, Guarded, Prioritized, Corrected, Meets, Unopposed, Passage, Shown,
      GapOperator, GapsMeet, Strip;
  }

  lemma ResolvedGaps(rules: Rules, catalog: map<SourceId, SourceSpan>, ref: RefRow, quote: Option<string>, checks: seq<Check>)
    requires ResolveChecks(rules, catalog, ref.checks, ref.category, ref.field, quote) == Ok(checks)
    ensures GapsMeet(ref.op, checks) <==> GapOperator(rules, catalog, ref, quote)
    ensures SomeBare(rules, ref, checks) <==> exists i :: 0 <= i < |ref.checks| && GapBare(rules, ref.checks[i], ProofAt(catalog, ref, i))
  {
    forall i | 0 <= i < |ref.checks|
      ensures |checks| == |ref.checks| && checks[i].quote == ProofAt(catalog, ref, i)
      ensures checks[i].outcome == Gap <==> GapShown(rules, ref, ref.checks[i], quote, ProofAt(catalog, ref, i))
    {
      ResolvedChecksIff(rules, catalog, ref, quote, i);
      ResolvedCheckIff(rules, catalog, ref, ref.checks[i], quote);
    }
    if ref.checks == [] {
      NoChecks(rules, catalog, ref, quote);
    }
    hide ResolveChecks, GapShown, ProofAt, GapBare;
  }

  lemma NoChecks(rules: Rules, catalog: map<SourceId, SourceSpan>, ref: RefRow, quote: Option<string>)
    requires ref.checks == []
    ensures ResolveChecks(rules, catalog, ref.checks, ref.category, ref.field, quote) == Ok([])
  {
  }

  // ----- when a requirement resolves at all

  /** A requirement resolves exactly when its passage, its quotation and all its conditions'
      quotations do, and no condition is called supported without one. */
  lemma ResolvesIff(rules: Rules, catalog: map<SourceId, SourceSpan>, owner: string, ref: RefRow)
    ensures ResolveRow(rules, catalog, owner, ref).Ok? <==>
      && Resolve(Some(ref.jdRange), catalog, JobScope, owner, Some(Description)).Ok?
      && ProfileQuote(ref.field, ref.range, catalog).Ok?
      && forall i :: 0 <= i < |ref.checks| ==> CheckCites(catalog, ref.checks[i])
  {
    hide Resolve, ProfileQuote, ResolvedRow, ResolveCheck, CheckCites;
    var quote := Shown(catalog, ref.field, ref.range);
    forall i | 0 <= i < |ref.checks|
      ensures ResolveCheck(rules, catalog, ref.checks[i], ref.category, ref.field, quote).Ok? <==> CheckCites(catalog, ref.checks[i])
    {
      CheckResolvesIff(rules, catalog, ref, ref.checks[i], quote);
    }
    AllResolveIff(rules, catalog, ref.checks, ref.category, ref.field, quote);
  }

  predicate CheckCites(catalog: map<SourceId, SourceSpan>, check: RefCheck) {
    ProfileQuote(check.field, check.range, catalog).Ok?
    && (check.outcome == Supported ==> TextOf(Shown(catalog, check.field, check.range)) != "")
  }

  lemma CheckResolvesIff(rules: Rules, catalog: map<SourceId, SourceSpan>, ref: RefRow, check: RefCheck, quote: Option<string>)
    ensures ResolveCheck(rules, catalog, check, ref.category, ref.field, quote).Ok? <==> CheckCites(catalog, check)
  {
    hide ProfileQuote, Displayed, UnprovenGap;
  }

  lemma AllResolveIff(rules: Rules, catalog: map<SourceId, SourceSpan>, refs: seq<RefCheck>, category: Category, rowField: Option<Field>, rowQuote: Option<string>)
    ensures ResolveChecks(rules, catalog, refs, category, rowField, rowQuote).Ok? <==>
      forall i :: 0 <= i < |refs| ==> ResolveCheck(rules, catalog, refs[i], category, rowField, rowQuote).Ok?
  {
    hide ResolveCheck;
    var r := ResolveChecks(rules, catalog, refs, category, rowField, rowQuote);
    if r.Ok? {
      forall i | 0 <= i < |refs|
        ensures ResolveCheck(rules, catalog, refs[i], category, rowField, rowQuote) == Ok(r.value[i])
      {
      }
    }
  }

  /** The loops over conditions fail with the first failing condition's error. */
  lemma {:induction false} FirstErrorWins(results: seq<Result<Check, EvidenceError>>)
    ensures Collect(results).Err? ==>
      exists i :: 0 <= i < |results| && results[i] == Err(Collect(results).error) && forall j :: 0 <= j < i ==> results[j].Ok?
  {
    if results != [] {
      var n := |results| - 1;
      FirstErrorWins(results[..n]);
      if Collect(results[..n]).Ok? && results[n].Err? {
        forall j | 0 <= j < n
          ensures results[j].Ok?
        {
          assert results[..n][j] == results[j];
        }
        assert results[n] == Err(Collect(results).error);
      }
    }
  }

  /** Whatever its origin, a row that passes validation cites the posting and the profile: its passage
      lies in the description, its quotation in an entry of its field, and support needs a field and
      a quotation that shows no redaction. */
  lemma ValidatedIsQuoted(rules: Rules, profile: Profile, source: string, row: Row)
    requires ValidateRow(rules, profile, source, row).Ok?
    ensures exists i :: 0 <= i <= |Normal(source)| && At(Normal(row.jdQuote), Normal(source), i)
    ensures TextOf(row.quote) != "" ==>
      row.field.Some? && exists k :: 0 <= k < |Originals(profile, row.field.value)| && Contains(TextOf(row.quote), Originals(profile, row.field.value)[k])
    ensures row.outcome == Supported ==> TextOf(row.quote) != "" && row.field.Some? && !In(REDACTED, TextOf(row.quote))
  {
    hide Guarded, ValidateChecks, ApplyOperator, Normal;
  }
}
