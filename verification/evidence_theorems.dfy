/** What the whole evidence pipeline guarantees about one requirement row. */
module EvidenceTheorems {
  import opened Text
  import opened Wrappers
  import opened Citations
  import opened Evidence
  import Chunks

  // ----- no stage raises an outcome

  /** The validation guards only ever turn an outcome into unknown. */
  lemma GuardedOnlyLowers(rules: Rules, row: Row, atomic: bool)
    ensures var g := Guarded(rules, row, atomic);
      && (g == row || (row.outcome != Unknown && g.outcome == Unknown && g == row.(outcome := Unknown, reason := g.reason)))
      && (g.outcome == Gap ==> rules.negative(TextOf(row.quote)))
  {
  }

  lemma CompoundLowers(rules: Rules, row: Row, jd: string)
    ensures Lowered(row, CompoundEvidence(rules, row, jd, false))
  {
  }

  lemma ConstructionLowers(rules: Rules, row: Row, jd: string)
    ensures Lowered(row, ConstructionEvidence(rules, row, jd))
  {
  }

  lemma ActivityLowers(rules: Rules, row: Row)
    ensures Lowered(row, ActivityEvidence(rules, row))
  {
  }

  /** Supported became unknown, or nothing but the reason changed. */
  predicate Lowered(before: Row, after: Row) {
    after == before.(outcome := after.outcome, reason := after.reason)
    && (after.outcome == before.outcome || (before.outcome == Supported && after.outcome == Unknown))
  }

  /** With promotions off, prioritizing keeps or lowers the outcome, except that explicit
      education dates may introduce a gap, re-cited from the saved education entry. */
  lemma PrioritizedOnlyLowers(rules: Rules, profile: Profile, row: Row, atomic: bool)
    ensures var p := Prioritized(rules, profile, row, atomic, false);
      var t := rules.timing(row.category, ConditionText(row, atomic), TextOf(profile.education));
      if t.Some? then p == row.(outcome := if t.value.1 then Gap else Unknown, field := Some(Education), quote := profile.education, reason := t.value.0)
      else p == row.(outcome := p.outcome, reason := p.reason) && (p.outcome == row.outcome || (row.outcome == Supported && p.outcome == Unknown))
  {
    hide CompoundEvidence, ConstructionEvidence, ActivityEvidence, ConditionText;
    var jd := ConditionText(row, atomic);
    CompoundLowers(rules, row, jd);
    var a := CompoundEvidence(rules, row, jd, false);
    ConstructionLowers(rules, a, jd);
    ActivityLowers(rules, ConstructionEvidence(rules, a, jd));
  }

  lemma AtomOnlyLowers(rules: Rules, profile: Profile, source: string, atom: Row)
    requires ValidateAtom(rules, profile, source, atom).Ok?
    ensures var child := ValidateAtom(rules, profile, source, atom).value;
      && (child.outcome == Supported ==>
            atom.outcome == Supported && child.field == atom.field && child.quote == atom.quote)
      && (child.outcome == Gap ==> AtomGap(rules, profile, atom, child))
  {
    GuardedOnlyLowers(rules, atom, true);
    PrioritizedOnlyLowers(rules, profile, Guarded(rules, atom, true), true);
  }

  /** Where a gap of a single condition comes from. */
  predicate AtomGap(rules: Rules, profile: Profile, atom: Row, child: Row) {
    var t := rules.timing(atom.category, atom.requirement, TextOf(profile.education));
    if t.Some? then t.value.1 && child.field == Some(Education) && child.quote == profile.education
    else atom.outcome == Gap && rules.negative(TextOf(atom.quote)) && child.field == atom.field && child.quote == atom.quote
  }

  /** What validation keeps of a row: everything but outcome, reason and the conditions'
      outcomes and reasons; and a supported condition keeps its citation inside the row's. */
  lemma ValidateRowKeeps(rules: Rules, profile: Profile, source: string, row: Row)
    requires ValidateRow(rules, profile, source, row).Ok?
    ensures var v := ValidateRow(rules, profile, source, row).value;
      && v == row.(outcome := v.outcome, reason := v.reason, checks := v.checks) && |v.checks| == |row.checks|
      && (v.outcome == row.outcome || v.outcome == Unknown)
      && (v.outcome == Gap ==> rules.negative(TextOf(row.quote)))
      && (v.outcome == Supported && v.checks != [] && v.op.Some? ==> Sufficient(v.op.value, v.checks))
      && (forall i :: 0 <= i < |v.checks| ==> CheckKept(row, row.checks[i], v.checks[i]))
      && (forall i :: 0 <= i < |v.checks| ==> GapKept(rules, profile, row, row.checks[i], v.checks[i]))
  {
    hide Strip, Contains, In, Guarded, ValidateCheck, ConditionText, ContainedInSome;
    GuardedOnlyLowers(rules, row, false);
    var guarded := Guarded(rules, row, false);
    var checks := ValidateChecks(rules, profile, source, guarded).value;
    forall i | 0 <= i < |checks|
      ensures CheckKept(row, row.checks[i], checks[i]) && GapKept(rules, profile, row, row.checks[i], checks[i])
    {
      assert ValidateCheck(rules, profile, source, guarded, guarded.checks[i]) == Ok(checks[i]);
      CheckOnlyLowers(rules, profile, source, guarded, guarded.checks[i]);
    }
  }

  ghost predicate CheckKept(row: Row, before: Check, after: Check) {
    && after == before.(outcome := after.outcome, reason := after.reason)
    && (after.outcome == Supported ==>
          before.outcome == Supported && before.field == row.field
          && Strip(TextOf(before.quote)) != "" && TextOf(row.quote) != "" && Contains(Strip(TextOf(before.quote)), TextOf(row.quote)))
  }

  /** A condition that validation leaves a gap: explicit education dates shown by the row, or the
      model's own gap with a negative statement in its citation. */
  ghost predicate GapKept(rules: Rules, profile: Profile, row: Row, before: Check, after: Check) {
    after.outcome == Gap ==>
      var t := rules.timing(row.category, before.condition, TextOf(profile.education));
      if t.Some? then
        t.value.1 && row.field == Some(Education) && Contains(TextOf(profile.education), TextOf(row.quote))
      else
        before.outcome == Gap && before.field == row.field && rules.negative(Strip(TextOf(before.quote)))
        && Contains(Strip(TextOf(before.quote)), TextOf(row.quote))
  }

  lemma CheckOnlyLowers(rules: Rules, profile: Profile, source: string, row: Row, check: Check)
    requires ValidateCheck(rules, profile, source, row, check).Ok?
    ensures CheckKept(row, check, ValidateCheck(rules, profile, source, row, check).value)
    ensures GapKept(rules, profile, row, check, ValidateCheck(rules, profile, source, row, check).value)
  {
    hide Strip, Contains, Guarded, Prioritized, Corrected;
    StripEmpty();
    AtomOnlyLowers(rules, profile, source, Cleaned(Atom(row, check)));
  }

  // ----- what resolving establishes

  ghost predicate QuoteOk(payload: Payload, field: Option<Field>, quote: Option<string>) {
    && (field.None? <==> quote.None?)
    && (quote.Some? ==> ExactQuote(payload, ProfileScope, "profile", field.value, quote.value))
  }

  lemma ProfileQuoteOk(payload: Payload, catalog: map<SourceId, SourceSpan>, field: Option<Field>, range: Option<Range>)
    requires IsCatalog(payload, catalog) && ProfileQuote(field, range, catalog).Ok?
    ensures QuoteOk(payload, field, ProfileQuote(field, range, catalog).value)
  {
    if range.Some? {
      ResolveExact(payload, catalog, range.value, ProfileScope, "profile", field);
    }
  }

  ghost predicate ChecksOk(payload: Payload, checks: seq<Check>) {
    forall i :: 0 <= i < |checks| ==> QuoteOk(payload, checks[i].field, checks[i].quote)
  }

  lemma ResolvedCheckOk(rules: Rules, payload: Payload, catalog: map<SourceId, SourceSpan>, ref: RefCheck, category: Category, field: Option<Field>, quote: Option<string>)
    requires IsCatalog(payload, catalog) && ResolveCheck(rules, catalog, ref, category, field, quote).Ok?
    ensures var check := ResolveCheck(rules, catalog, ref, category, field, quote).value;
      && QuoteOk(payload, check.field, check.quote)
      && check.condition == ref.condition && (check.outcome == ref.outcome || check.outcome == Unknown)
  {
    hide ProfileQuote, IsCatalog, QuoteOk, UnprovenGap, Displayed;
    ProfileQuoteOk(payload, catalog, ref.field, ref.range);
  }

  /** The conditions of a resolved row: the model's, in order, each with its outcome or unknown. */
  ghost predicate ChecksLowered(refs: seq<RefCheck>, checks: seq<Check>) {
    |checks| == |refs| && forall i :: 0 <= i < |checks| ==>
      checks[i].condition == refs[i].condition && (checks[i].outcome == refs[i].outcome || checks[i].outcome == Unknown)
  }

  lemma ResolvedChecksOk(rules: Rules, payload: Payload, catalog: map<SourceId, SourceSpan>, refs: seq<RefCheck>, category: Category, field: Option<Field>, quote: Option<string>)
    requires IsCatalog(payload, catalog) && ResolveChecks(rules, catalog, refs, category, field, quote).Ok?
    ensures var checks := ResolveChecks(rules, catalog, refs, category, field, quote).value;
      ChecksOk(payload, checks) && ChecksLowered(refs, checks)
  {
    hide ResolveCheck, IsCatalog, QuoteOk;
    var checks := ResolveChecks(rules, catalog, refs, category, field, quote).value;
    forall i | 0 <= i < |checks|
      ensures QuoteOk(payload, checks[i].field, checks[i].quote) && checks[i].condition == refs[i].condition
              && (checks[i].outcome == refs[i].outcome || checks[i].outcome == Unknown)
    {
      assert ResolveCheck(rules, catalog, refs[i], category, field, quote) == Ok(checks[i]);
      ResolvedCheckOk(rules, payload, catalog, refs[i], category, field, quote);
    }
  }

  lemma ResolvedRowLowers(rules: Rules, ref: RefRow, jdQuote: string, quote: Option<string>, checks: seq<Check>)
    ensures var row := ResolvedRow(rules, ref, jdQuote, quote, checks);
      && row == Row(ref.requirement, ref.category, row.outcome, jdQuote, ref.field, quote, row.reason, checks, Some(ref.op))
      && (row.outcome == ref.outcome || row.outcome == Unknown)
      && (row.outcome == Supported ==> Sufficient(ref.op, checks))
  {
    hide UnverifiedReason, SuffixReason, UnprovenGap, AllAre, SomeIs;
  }

  /** Everything resolving establishes: exact quotations only, and outcomes that are the
      model's or unknown, with a supported row's operator satisfied. */
  ghost predicate ResolvedFrom(payload: Payload, owner: string, ref: RefRow, row: Row) {
    && ExactQuote(payload, JobScope, owner, Description, row.jdQuote)
    && QuoteOk(payload, row.field, row.quote) && ChecksOk(payload, row.checks)
    && row == Row(ref.requirement, ref.category, row.outcome, row.jdQuote, ref.field, row.quote, row.reason, row.checks, Some(ref.op))
    && (row.outcome == ref.outcome || row.outcome == Unknown)
    && ChecksLowered(ref.checks, row.checks)
    && (row.outcome == Supported ==> Sufficient(ref.op, row.checks))
  }

  lemma ResolveEstablishes(rules: Rules, payload: Payload, catalog: map<SourceId, SourceSpan>, owner: string, ref: RefRow)
    requires IsCatalog(payload, catalog) && ResolveRow(rules, catalog, owner, ref).Ok?
    ensures ResolvedFrom(payload, owner, ref, ResolveRow(rules, catalog, owner, ref).value)
  {
    hide Resolve, ProfileQuote, ResolveChecks, ResolvedRow, IsCatalog, ExactQuote, QuoteOk, ChecksOk, ChecksLowered, Sufficient;
    ResolveExactly(payload, catalog, ref.jdRange, owner);
    ProfileQuoteOk(payload, catalog, ref.field, ref.range);
    var jdQuote := TextOf(Resolve(Some(ref.jdRange), catalog, JobScope, owner, Some(Description)).value);
    var quote := ProfileQuote(ref.field, ref.range, catalog).value;
    ResolvedChecksOk(rules, payload, catalog, ref.checks, ref.category, ref.field, quote);
    var checks := ResolveChecks(rules, catalog, ref.checks, ref.category, ref.field, quote).value;
    ResolvedRowLowers(rules, ref, jdQuote, quote, checks);
  }

  lemma ResolveExactly(payload: Payload, catalog: map<SourceId, SourceSpan>, range: Range, owner: string)
    requires IsCatalog(payload, catalog) && Resolve(Some(range), catalog, JobScope, owner, Some(Description)).Ok?
    ensures ExactQuote(payload, JobScope, owner, Description, TextOf(Resolve(Some(range), catalog, JobScope, owner, Some(Description)).value))
  {
    hide Resolve, IsCatalog;
    ResolveExact(payload, catalog, range, JobScope, owner, Some(Description));
  }

  // ----- the stages put together

  /** How a final row relates to the resolved row it came from. */
  ghost predicate FinalFrom(rules: Rules, profile: Profile, resolved: Row, final: Row) {
    var row := Cleaned(resolved);
    var t := rules.timing(row.category, row.jdQuote, TextOf(profile.education));
    && final == row.(outcome := final.outcome, field := final.field, quote := final.quote, reason := final.reason, checks := final.checks)
    && |final.checks| == |row.checks|
    && (forall i :: 0 <= i < |final.checks| ==> CheckKept(row, row.checks[i], final.checks[i]))
    && (forall i :: 0 <= i < |final.checks| ==> GapKept(rules, profile, row, row.checks[i], final.checks[i]))
    && (if t.Some? then
          final.outcome == (if t.value.1 then Gap else Unknown) && final.field == Some(Education) && final.quote == profile.education
        else
          && final.field == row.field && final.quote == row.quote
          && (final.outcome == row.outcome || final.outcome == Unknown)
          && (final.outcome == Gap ==> rules.negative(TextOf(row.quote)))
          && (final.outcome == Supported && final.checks != [] && final.op.Some? ==> Sufficient(final.op.value, final.checks)))
  }

  lemma LaterStages(rules: Rules, profile: Profile, source: string, resolved: Row)
    requires ValidateRow(rules, profile, source, Cleaned(resolved)).Ok?
    ensures var valid := ValidateRow(rules, profile, source, Cleaned(resolved)).value;
      FinalFrom(rules, profile, resolved, Corrected(rules, Prioritized(rules, profile, valid, false, false)))
  {
    hide ValidateRow, Prioritized, Cleaned, CheckKept, GapKept, Sufficient, UnverifiedReason;
    var row := Cleaned(resolved);
    var valid := ValidateRow(rules, profile, source, row).value;
    ValidateRowKeeps(rules, profile, source, row);
    PrioritizedOnlyLowers(rules, profile, valid, false);
  }

  /** A run of the pipeline that is not rejected passes through a resolved row. */
  lemma PipelineStages(rules: Rules, payload: Payload, catalog: map<SourceId, SourceSpan>, job: Job, ref: RefRow) returns (resolved: Row)
    requires IsCatalog(payload, catalog) && Pipeline(rules, payload, catalog, job, ref).Ok?
    ensures ResolvedFrom(payload, job.id, ref, resolved)
    ensures FinalFrom(rules, payload.profile, resolved, Pipeline(rules, payload, catalog, job, ref).value)
  {
    hide ResolveRow, ValidateRow, Prioritized, Corrected, Cleaned, IsCatalog, ResolvedFrom, FinalFrom;
    resolved := ResolveRow(rules, catalog, job.id, ref).value;
    ResolveEstablishes(rules, payload, catalog, job.id, ref);
    LaterStages(rules, payload.profile, job.description, resolved);
  }

  // ----- main results

  /** The server never makes anything supported: a final supported row, and every final
      supported condition, was called supported by the model. */
  lemma SupportedOnlyIfModelSaidSo(rules: Rules, payload: Payload, catalog: map<SourceId, SourceSpan>, job: Job, ref: RefRow)
    requires IsCatalog(payload, catalog) && Pipeline(rules, payload, catalog, job, ref).Ok?
    ensures var final := Pipeline(rules, payload, catalog, job, ref).value;
      && (final.outcome == Supported ==> ref.outcome == Supported)
      && |final.checks| == |ref.checks|
      && forall i :: 0 <= i < |final.checks| ==>
           final.checks[i].condition == ref.checks[i].condition
           && (final.checks[i].outcome == Supported ==> ref.checks[i].outcome == Supported)
  {
    hide Pipeline, IsCatalog, ExactQuote, QuoteOk, Sufficient, StripQuote, Strip, Contains;
    var resolved := PipelineStages(rules, payload, catalog, job, ref);
    var final := Pipeline(rules, payload, catalog, job, ref).value;
    assert forall i :: 0 <= i < |final.checks| ==> CheckKept(Cleaned(resolved), Cleaned(resolved).checks[i], final.checks[i]);
  }

  /** A final supported row satisfies its operator over its final conditions: every condition
      for atomic and all_of, some condition for any_of, and never under unspecified. */
  lemma SupportedSatisfiesOperator(rules: Rules, payload: Payload, catalog: map<SourceId, SourceSpan>, job: Job, ref: RefRow)
    requires IsCatalog(payload, catalog) && Pipeline(rules, payload, catalog, job, ref).Ok?
    requires Pipeline(rules, payload, catalog, job, ref).value.outcome == Supported
    ensures var final := Pipeline(rules, payload, catalog, job, ref).value;
      final.op == Some(ref.op) && Sufficient(ref.op, final.checks)
  {
    hide Pipeline, IsCatalog, ExactQuote, QuoteOk, Sufficient, StripQuote, Strip, Contains;
    var resolved := PipelineStages(rules, payload, catalog, job, ref);
    var final := Pipeline(rules, payload, catalog, job, ref).value;
    if final.checks == [] {
      assert final.checks == resolved.checks;
    }
  }

  /** Stripping an exact quotation leaves an exact quotation, unless nothing is left. */
  lemma StrippedIsExact(payload: Payload, scope: Scope, owner: string, field: Field, quote: string)
    requires ExactQuote(payload, scope, owner, field, quote) && Strip(quote) != ""
    ensures ExactQuote(payload, scope, owner, field, Strip(quote))
  {
    hide Strip, QuotedFrom;
    var e, lo: nat, hi: nat :| QuotedFrom(payload, e, lo, hi, scope, owner, field, quote);
    var a, b := StrippedFrom(payload, e, lo, hi, scope, owner, field, quote);
  }

  lemma StrippedFrom(payload: Payload, e: Entry, lo: nat, hi: nat, scope: Scope, owner: string, field: Field, quote: string)
    returns (a: nat, b: nat)
    requires QuotedFrom(payload, e, lo, hi, scope, owner, field, quote) && Strip(quote) != ""
    ensures QuotedFrom(payload, e, a, b, scope, owner, field, Strip(quote))
  {
    hide In, AllSpace, IsSpace, Strip, IsEntry;
    var i, j := StripIsSlice(quote);
    SliceOfSlice(e.text, lo, hi, i, j);
    a, b := lo + i, lo + j;
    if In(REDACTED, Strip(quote)) {
      SliceIn(quote, i, j);
      InTransitive(REDACTED, Strip(quote), quote);
    }
  }

  /** A final supported row shows a contiguous slice of one saved profile entry, nonempty, at
      most 4000 characters, with no redaction marker; each supported condition's own quotation
      is such a slice too and lies within the row's, up to whitespace. */
  lemma SupportedIsQuoted(rules: Rules, payload: Payload, catalog: map<SourceId, SourceSpan>, job: Job, ref: RefRow)
    requires DistinctJobs(payload.jobs) && job in payload.jobs
    requires IsCatalog(payload, catalog) && Pipeline(rules, payload, catalog, job, ref).Ok?
    requires Pipeline(rules, payload, catalog, job, ref).value.outcome == Supported
    ensures var final := Pipeline(rules, payload, catalog, job, ref).value;
      && final.field == ref.field && final.field.Some? && final.quote.Some?
      && ExactQuote(payload, ProfileScope, "profile", final.field.value, final.quote.value)
      && forall i :: 0 <= i < |final.checks| && final.checks[i].outcome == Supported ==>
           && final.checks[i].quote.Some?
           && ExactQuote(payload, ProfileScope, "profile", final.field.value, final.checks[i].quote.value)
           && Contains(final.checks[i].quote.value, final.quote.value)
  {
    hide Pipeline, IsCatalog, ExactQuote, Sufficient, Strip, Contains;
    var resolved := PipelineStages(rules, payload, catalog, job, ref);
    var final := Pipeline(rules, payload, catalog, job, ref).value;
    SupportedNotBlank(rules, payload, catalog, job, ref);
    StrippedIsExact(payload, ProfileScope, "profile", resolved.field.value, resolved.quote.value);
    forall i | 0 <= i < |final.checks| && final.checks[i].outcome == Supported
      ensures final.checks[i].quote.Some?
      ensures ExactQuote(payload, ProfileScope, "profile", final.field.value, final.checks[i].quote.value)
      ensures Contains(final.checks[i].quote.value, final.quote.value)
    {
      SupportedCheckQuoted(payload, resolved, final, i);
    }
  }

  /** Validation refuses a supported row with nothing to show. */
  lemma SupportedNotBlank(rules: Rules, payload: Payload, catalog: map<SourceId, SourceSpan>, job: Job, ref: RefRow)
    requires IsCatalog(payload, catalog) && Pipeline(rules, payload, catalog, job, ref).Ok?
    requires Pipeline(rules, payload, catalog, job, ref).value.outcome == Supported
    ensures var final := Pipeline(rules, payload, catalog, job, ref).value; TextOf(final.quote) != "" && final.field.Some?
  {
    hide ResolveRow, Prioritized, Cleaned, IsCatalog, Guarded, ValidateChecks, Contains, ContainedInSome, In, Strip;
    var resolved := ResolveRow(rules, catalog, job.id, ref).value;
    var row := Cleaned(resolved);
    ValidRowNotBlank(rules, payload.profile, job.description, row);
    PrioritizedOnlyLowers(rules, payload.profile, ValidateRow(rules, payload.profile, job.description, row).value, false);
  }

  lemma ValidRowNotBlank(rules: Rules, profile: Profile, source: string, row: Row)
    requires ValidateRow(rules, profile, source, row).Ok?
    ensures var v := ValidateRow(rules, profile, source, row).value;
      v.outcome == Supported ==> TextOf(v.quote) != "" && v.field.Some?
  {
    hide Guarded, ValidateChecks, Contains, ContainedInSome, In;
    ValidateRowKeeps(rules, profile, source, row);
  }

  lemma StripTwice(s: string)
    ensures Strip(Strip(s)) == Strip(s)
  {
    var a, b := StripIsSlice(s);
    if a < b {
      StripTrimmed(s[a..b]);
    }
  }

  lemma SupportedCheckQuoted(payload: Payload, resolved: Row, valid: Row, i: nat)
    requires ChecksOk(payload, resolved.checks) && i < |valid.checks| == |resolved.checks|
    requires CheckKept(Cleaned(resolved), Cleaned(resolved).checks[i], valid.checks[i]) && valid.checks[i].outcome == Supported
    ensures valid.checks[i].quote.Some? && resolved.field.Some?
    ensures ExactQuote(payload, ProfileScope, "profile", resolved.field.value, valid.checks[i].quote.value)
    ensures Contains(valid.checks[i].quote.value, TextOf(Cleaned(resolved).quote))
  {
    hide ExactQuote, Strip, Contains;
    var check := resolved.checks[i];
    assert QuoteOk(payload, check.field, check.quote);
    StripEmpty();
    StripTwice(TextOf(check.quote));
    StrippedIsExact(payload, ProfileScope, "profile", check.field.value, check.quote.value);
  }

  /** Where a final gap comes from: the model's own gap with a negative statement in its cited
      quotation, or saved education dates that explicitly conflict with the cited requirement. */
  lemma GapProvenance(rules: Rules, payload: Payload, catalog: map<SourceId, SourceSpan>, job: Job, ref: RefRow)
    requires IsCatalog(payload, catalog) && Pipeline(rules, payload, catalog, job, ref).Ok?
    requires Pipeline(rules, payload, catalog, job, ref).value.outcome == Gap
    ensures var final := Pipeline(rules, payload, catalog, job, ref).value;
      var t := rules.timing(final.category, final.jdQuote, TextOf(payload.profile.education));
      if t.Some? then t.value.1 && final.field == Some(Education) && final.quote == payload.profile.education
      else ref.outcome == Gap && rules.negative(TextOf(final.quote))
  {
    hide Pipeline, IsCatalog, ExactQuote, QuoteOk, Sufficient, StripQuote, Strip, Contains;
    var resolved := PipelineStages(rules, payload, catalog, job, ref);
  }

  /** The same for each condition: a final gap comes from explicit education dates, under a row that
      cites the education entry, or it is the model's own gap, cited by the row's field, with a
      negative statement in its quotation. */
  lemma ConditionGapProvenance(rules: Rules, payload: Payload, catalog: map<SourceId, SourceSpan>, job: Job, ref: RefRow, i: nat)
    requires IsCatalog(payload, catalog) && Pipeline(rules, payload, catalog, job, ref).Ok?
    requires i < |Pipeline(rules, payload, catalog, job, ref).value.checks|
    requires Pipeline(rules, payload, catalog, job, ref).value.checks[i].outcome == Gap
    ensures i < |ref.checks|
    ensures var final := Pipeline(rules, payload, catalog, job, ref).value; var check := final.checks[i];
      var t := rules.timing(final.category, check.condition, TextOf(payload.profile.education));
      if t.Some? then t.value.1 && ref.field == Some(Education)
      else ref.checks[i].outcome == Gap && check.field == ref.field && rules.negative(TextOf(check.quote))
  {
    hide Pipeline, IsCatalog, ExactQuote, QuoteOk, Sufficient, Strip, Contains;
    var resolved := PipelineStages(rules, payload, catalog, job, ref);
    var final := Pipeline(rules, payload, catalog, job, ref).value;
    var row := Cleaned(resolved);
    assert CheckKept(row, row.checks[i], final.checks[i]);
    assert GapKept(rules, payload.profile, row, row.checks[i], final.checks[i]);
    StripEmpty();
    StripTwice(TextOf(resolved.checks[i].quote));
  }

  // ----- when a resolved batch is still rejected

  /** A supported claim whose citation is nothing but whitespace. */
  predicate BlankSupport(row: Row) {
    || (row.outcome == Supported && Strip(TextOf(row.quote)) == "")
    || exists i :: 0 <= i < |row.checks| && row.checks[i].outcome == Supported && Strip(TextOf(row.checks[i].quote)) == ""
  }

  lemma StripEmpty()
    ensures Strip("") == ""
  {
  }

  lemma JobQuoteStands(payload: Payload, job: Job, quote: string)
    requires DistinctJobs(payload.jobs) && job in payload.jobs && ExactQuote(payload, JobScope, job.id, Description, quote)
    ensures Contains(Strip(quote), job.description)
  {
    hide Contains, Strip, ExactQuote;
    QuoteContained(payload, JobScope, job.id, Description, quote);
    var e :| IsEntry(payload, e) && e.scope == JobScope && e.owner == job.id && Contains(Strip(quote), e.text);
    SameJob(payload.jobs, job, Job(e.owner, e.text));
  }

  lemma ProfileQuoteStands(payload: Payload, field: Field, quote: string)
    requires ExactQuote(payload, ProfileScope, "profile", field, quote)
    ensures ContainedInSome(Strip(quote), Originals(payload.profile, field))
    ensures Strip(quote) != "" ==> !In(REDACTED, Strip(quote))
  {
    hide Contains, Strip, In;
    QuoteContained(payload, ProfileScope, "profile", field, quote);
    var f :| IsEntry(payload, f) && f.scope == ProfileScope && f.field == field && Contains(Strip(quote), f.text);
    assert Contains(Strip(quote), Originals(payload.profile, field)[f.index]);
    if Strip(quote) != "" {
      StrippedIsExact(payload, ProfileScope, "profile", field, quote);
      var e, lo: nat, hi: nat :| QuotedFrom(payload, e, lo, hi, ProfileScope, "profile", field, Strip(quote));
    }
  }

  lemma NotRejected(payload: Payload, job: Job, row: Row)
    requires DistinctJobs(payload.jobs) && job in payload.jobs
    requires ExactQuote(payload, JobScope, job.id, Description, row.jdQuote) && QuoteOk(payload, row.field, row.quote)
    ensures Rejected(payload.profile, job.description, row.(jdQuote := Strip(row.jdQuote), quote := StripQuote(row.quote))) <==>
      row.outcome == Supported && Strip(TextOf(row.quote)) == ""
  {
    hide Contains, Strip, In, ExactQuote, ContainedInSome, Originals;
    JobQuoteStands(payload, job, row.jdQuote);
    StripEmpty();
    if row.quote.Some? {
      ProfileQuoteStands(payload, row.field.value, row.quote.value);
    }
  }

  lemma SameJob(jobs: seq<Job>, a: Job, b: Job)
    requires DistinctJobs(jobs) && a in jobs && b in jobs && a.id == b.id
    ensures a == b
  {
  }

  /** Containment never rejects what was resolved: validation of a resolved row fails exactly
      when a supported row or condition cites only whitespace. */
  lemma ResolvedRejectedIff(rules: Rules, payload: Payload, catalog: map<SourceId, SourceSpan>, job: Job, ref: RefRow)
    requires DistinctJobs(payload.jobs) && job in payload.jobs && IsCatalog(payload, catalog)
    requires ResolveRow(rules, catalog, job.id, ref).Ok?
    ensures var resolved := ResolveRow(rules, catalog, job.id, ref).value;
      ValidateRow(rules, payload.profile, job.description, Cleaned(resolved)).Err? <==> BlankSupport(resolved)
  {
    hide ResolveRow, IsCatalog, ExactQuote, Rejected, Strip, ValidateCheck, Guarded, ApplyOperator;
    var resolved := ResolveRow(rules, catalog, job.id, ref).value;
    var cleaned := Cleaned(resolved);
    ResolveEstablishes(rules, payload, catalog, job.id, ref);
    NotRejected(payload, job, resolved);
    RejectedIgnoresChecks(payload.profile, job.description, cleaned, resolved.checks);
    GuardedOnlyLowers(rules, cleaned, false);
    var guarded := Guarded(rules, cleaned, false);
    forall i | 0 <= i < |guarded.checks|
      ensures ValidateCheck(rules, payload.profile, job.description, guarded, guarded.checks[i]).Err? <==>
        resolved.checks[i].outcome == Supported && Strip(TextOf(resolved.checks[i].quote)) == ""
    {
      AtomRejectedIff(rules, payload, job, resolved, guarded, i);
    }
    ValidateChecksErrIff(rules, payload.profile, job.description, guarded);
  }

  lemma ValidateChecksErrIff(rules: Rules, profile: Profile, source: string, row: Row)
    ensures ValidateChecks(rules, profile, source, row).Err? <==>
      exists i :: 0 <= i < |row.checks| && ValidateCheck(rules, profile, source, row, row.checks[i]).Err?
  {
    hide ValidateCheck;
    var r := ValidateChecks(rules, profile, source, row);
    var results := CheckResults(rules, profile, source, row);
    assert r == Collect(results);
    if r.Err? {
      var i :| 0 <= i < |results| && results[i].Err?;
      assert ValidateCheck(rules, profile, source, row, row.checks[i]).Err?;
    } else {
      forall i | 0 <= i < |row.checks|
        ensures ValidateCheck(rules, profile, source, row, row.checks[i]).Ok?
      {
        assert results[i] == Ok(r.value[i]);
      }
    }
  }

  lemma RejectedIgnoresChecks(profile: Profile, source: string, row: Row, checks: seq<Check>)
    ensures Rejected(profile, source, row) == Rejected(profile, source, row.(checks := checks))
  {
  }

  lemma AtomRejectedIff(rules: Rules, payload: Payload, job: Job, resolved: Row, guarded: Row, i: nat)
    requires DistinctJobs(payload.jobs) && job in payload.jobs
    requires ExactQuote(payload, JobScope, job.id, Description, resolved.jdQuote) && ChecksOk(payload, resolved.checks)
    requires i < |resolved.checks| == |guarded.checks|
    requires guarded.jdQuote == Strip(resolved.jdQuote) && guarded.checks == Cleaned(resolved).checks
    ensures ValidateCheck(rules, payload.profile, job.description, guarded, guarded.checks[i]).Err? <==>
      resolved.checks[i].outcome == Supported && Strip(TextOf(resolved.checks[i].quote)) == ""
  {
    hide ExactQuote, Rejected, Strip, Guarded, Prioritized, Corrected, Contains;
    var check := resolved.checks[i];
    assert QuoteOk(payload, check.field, check.quote);
    var atom := Atom(guarded, check).(jdQuote := resolved.jdQuote);
    NotRejected(payload, job, atom);
    StripTwice(resolved.jdQuote);
    StripTwice(TextOf(check.quote));
    assert Cleaned(Atom(guarded, guarded.checks[i])) == atom.(jdQuote := Strip(atom.jdQuote), quote := StripQuote(atom.quote));
  }

  lemma SupportedCheckShown(rules: Rules, catalog: map<SourceId, SourceSpan>, ref: RefCheck, category: Category, field: Option<Field>, quote: Option<string>)
    requires ResolveCheck(rules, catalog, ref, category, field, quote).Ok?
    ensures var check := ResolveCheck(rules, catalog, ref, category, field, quote).value;
      && check.field == ref.field && Ok(check.quote) == ProfileQuote(ref.field, ref.range, catalog)
      && (check.outcome == Supported ==> quote.Some? && check.quote.Some? && check.field == field)
  {
    hide ProfileQuote, UnprovenGap, Contains;
  }

  /** Blank support needs a whitespace-only line of the education field: for a requirement with
      any condition at all (the schema demands one), no other citation can trigger it. */
  lemma BlankSupportNeedsEducation(rules: Rules, payload: Payload, catalog: map<SourceId, SourceSpan>, owner: string, ref: RefRow)
    requires DistinctJobs(payload.jobs) && IsCatalog(payload, catalog) && ref.checks != []
    requires ResolveRow(rules, catalog, owner, ref).Ok? && BlankSupport(ResolveRow(rules, catalog, owner, ref).value)
    ensures ref.field == Some(Education)
  {
    hide Resolve, ResolveCheck, ProfileQuote, ResolvedRow, IsCatalog, Strip, Contains;
    var row := ResolveRow(rules, catalog, owner, ref).value;
    var quote := ProfileQuote(ref.field, ref.range, catalog).value;
    var checks := ResolveChecks(rules, catalog, ref.checks, ref.category, ref.field, quote).value;
    var jdQuote := TextOf(Resolve(Some(ref.jdRange), catalog, JobScope, owner, Some(Description)).value);
    ResolvedRowLowers(rules, ref, jdQuote, quote, checks);
    assert row.checks == checks && row.quote == quote && row.field == ref.field;
    forall i | 0 <= i < |checks| && checks[i].outcome == Supported
      ensures quote.Some? && checks[i].quote.Some? && checks[i].field == ref.field
      ensures ref.field != Some(Education) ==> Strip(TextOf(checks[i].quote)) != ""
    {
      assert ResolveCheck(rules, catalog, ref.checks[i], ref.category, ref.field, quote) == Ok(checks[i]);
      SupportedCheckShown(rules, catalog, ref.checks[i], ref.category, ref.field, quote);
      NotBlank(payload, catalog, ref.checks[i].field, ref.checks[i].range);
    }
    if row.outcome == Supported {
      assert Sufficient(ref.op, checks);
      NotBlank(payload, catalog, ref.field, ref.range);
    }
  }

  lemma NotBlank(payload: Payload, catalog: map<SourceId, SourceSpan>, field: Option<Field>, range: Option<Range>)
    requires DistinctJobs(payload.jobs) && IsCatalog(payload, catalog)
    requires ProfileQuote(field, range, catalog).Ok? && ProfileQuote(field, range, catalog).value.Some?
    ensures field != Some(Education) ==> Strip(TextOf(ProfileQuote(field, range, catalog).value)) != ""
  {
    hide IsCatalog, Strip, Resolve;
    assert range.Some? by {
      if range.None? { ResolveNothing(catalog, field); }
    }
    if field != Some(Education) {
      QuoteTrimmed(payload, catalog, range.value, ProfileScope, "profile", field.value);
    }
  }

  lemma ResolveNothing(catalog: map<SourceId, SourceSpan>, field: Option<Field>)
    ensures Resolve(None, catalog, ProfileScope, "profile", field) == Ok(None)
  {
  }

  // ----- the failing family is not empty

  const LENIENT := Rules(
    _ => true, (_, _, _, _) => None, (_, _, _) => None, (_, _, _) => None, (_, _, _, _) => "",
    (_, _, _) => false, (_, _) => false, (_, _) => false, (_, _) => false, (_, _) => false,
    (_, _, _) => None, _ => false, (_, _, _) => None, _ => "")

  /** A saved education entry, trimmed at both ends as the profile form stores it, with a line of
      one space inside. */
  const BLANK_TEXT := "B\n \nM"
  const BLANK_PAYLOAD := Payload(Profile(Some(BLANK_TEXT), None, [], None), [Job("j", "x")])
  const BLANK_RANGE := Range(SourceId(ProfileScope, "profile", Education, 0, 2, 3), SourceId(ProfileScope, "profile", Education, 0, 2, 3))
  const JOB_RANGE := Range(SourceId(JobScope, "j", Description, 0, 0, 1), SourceId(JobScope, "j", Description, 0, 0, 1))

  /** The model cites the blank education line for a condition it calls supported. */
  const BLANK_ROW := RefRow("r", EducationRow, Supported, JOB_RANGE, Some(Education), Some(BLANK_RANGE), "why", Atomic,
                            [RefCheck("c", Supported, Some(Education), Some(BLANK_RANGE), "why")])

  /** Its lines, the blank one included, are issued as they stand. */
  lemma BlankLines()
    ensures Chunks.LineSpans(BLANK_TEXT, 0) == [Chunks.Span(0, 1), Chunks.Span(2, 3), Chunks.Span(4, 5)]
    ensures Strip(BLANK_TEXT) == BLANK_TEXT && BLANK_TEXT[2..3] == " "
  {
    BlankTrimmed();
    hide Strip;
    var t := BLANK_TEXT;
    assert t[0] == 'B' && t[1] == '\n' && t[2] == ' ' && t[3] == '\n' && t[4] == 'M' && |t| == 5;
    LineFrom(t, 4, 5);
    LineFrom(t, 2, 3);
    LineFrom(t, 0, 1);
    hide Chunks.LineEnd, Chunks.LineSpans;
  }

  /** One line, up to a line break or the end. */
  lemma LineFrom(t: string, start: nat, end: nat)
    requires end == start + 1 <= |t| && t[start] !in "\r\n" && (end < |t| ==> t[end] in "\r\n")
    ensures Chunks.LineSpans(t, start) == [Chunks.Span(start, end)] + if end == |t| then [] else Chunks.LineSpans(t, end + 1)
  {
    assert Chunks.LineEnd(t, end) == end;
  }

  lemma BlankTrimmed()
    ensures Strip(BLANK_TEXT) == BLANK_TEXT && BLANK_TEXT[2..3] == " "
  {
    hide Strip;
    StripTrimmed(BLANK_TEXT);
    assert BLANK_TEXT[2..3] == [BLANK_TEXT[2]];
  }

  lemma BlankPayloadIssues(catalog: map<SourceId, SourceSpan>)
    requires IsCatalog(BLANK_PAYLOAD, catalog)
    ensures BLANK_RANGE.first in catalog && catalog[BLANK_RANGE.first] == SourceSpan(BLANK_RANGE.first, 1, BLANK_TEXT)
    ensures JOB_RANGE.first in catalog && catalog[JOB_RANGE.first] == SourceSpan(JOB_RANGE.first, 0, "x")
  {
    var e := Entry(ProfileScope, "profile", Education, 0, BLANK_TEXT);
    BlankLines();
    ShortClear();
    hide Chunks.LineSpans, Strip, In;
    assert IssuedBy(e, SourceSpan(BLANK_RANGE.first, 1, BLANK_TEXT)) && IsEntry(BLANK_PAYLOAD, e);
    JobIssues(BLANK_PAYLOAD, catalog);
  }

  lemma ShortClear()
    ensures !In(REDACTED, " ") && !In(REDACTED, "x")
  {
  }

  /** The one-character posting of both examples. */
  lemma JobIssues(payload: Payload, catalog: map<SourceId, SourceSpan>)
    requires IsCatalog(payload, catalog) && payload.jobs == [Job("j", "x")]
    ensures JOB_RANGE.first in catalog && catalog[JOB_RANGE.first] == SourceSpan(JOB_RANGE.first, 0, "x")
  {
    var j := Entry(JobScope, "j", Description, 0, "x");
    OneSegment();
    hide Chunks.SegmentSpans;
    assert Issued(payload, SourceSpan(JOB_RANGE.first, 0, "x")) by {
      assert payload.jobs[0] == Job("j", "x");
      assert IssuedBy(j, SourceSpan(JOB_RANGE.first, 0, "x")) && IsEntry(payload, j);
    }
  }

  lemma OneSegment()
    ensures Chunks.SegmentSpans("x", 0) == [Chunks.Span(0, 1)]
  {
    assert Chunks.FirstBreak("x", 0, 1) == None && Chunks.SegmentEnd("x", 0) == 1;
    assert Chunks.BackSpace("x", 0, 1) == 1;
  }

  /** A batch can resolve and then be refused: the whitespace-only education line passes as a
      citation and is empty once stripped. */
  lemma BlankEducationLineIsRefused(catalog: map<SourceId, SourceSpan>)
    requires IsCatalog(BLANK_PAYLOAD, catalog)
    ensures ResolveRow(LENIENT, catalog, "j", BLANK_ROW).Ok?
    ensures Pipeline(LENIENT, BLANK_PAYLOAD, catalog, Job("j", "x"), BLANK_ROW).Err?
  {
    hide IsCatalog, Pipeline, ResolveRow, In, Chunks.LineSpans, Strip;
    BlankPayloadIssues(catalog);
    ShortClear();
    BlankLines();
    assert ProfileQuote(Some(Education), Some(BLANK_RANGE), catalog) == Ok(Some(" "));
    assert Resolve(Some(JOB_RANGE), catalog, JobScope, "j", Some(Description)) == Ok(Some("x")) by {
      assert "x"[0..1] == "x";
    }
    BlankRowResolves(catalog);
  }

  lemma CollectOne(results: seq<Result<Check, EvidenceError>>, check: Check)
    requires |results| == 1 && results[0] == Ok(check)
    ensures Collect(results) == Ok([check])
  {
    assert Collect(results[..0]) == Ok([]);
  }

  /** A requirement with one condition, both supported and both citing the same piece,
      resolves as the model wrote it. */
  lemma OneCheckResolves(catalog: map<SourceId, SourceSpan>, ref: RefRow, quote: string)
    requires ref.field.Some? && ref.range.Some? && ref.op == Atomic && ref.outcome == Supported
    requires ref.checks == [RefCheck("c", Supported, ref.field, ref.range, "why")]
    requires ProfileQuote(ref.field, ref.range, catalog) == Ok(Some(quote)) && quote != ""
    requires Resolve(Some(ref.jdRange), catalog, JobScope, "j", Some(Description)) == Ok(Some("x"))
    ensures ResolveRow(LENIENT, catalog, "j", ref) ==
      Ok(Row(ref.requirement, ref.category, Supported, "x", ref.field, Some(quote), ref.reason,
             [Check("c", Supported, ref.field, Some(quote), "why")], Some(Atomic)))
  {
    hide ProfileQuote, Resolve, ResolvedRow, ResolveChecks;
    var check := Check("c", Supported, ref.field, Some(quote), "why");
    CheckResolves(catalog, ref.checks[0], ref.category, quote);
    OneResolvedCheck(LENIENT, catalog, ref.checks, ref.category, ref.field, Some(quote), check);
    RowResolves(ref, quote, check);
  }

  lemma OneResolvedCheck(rules: Rules, catalog: map<SourceId, SourceSpan>, refs: seq<RefCheck>, category: Category, rowField: Option<Field>, rowQuote: Option<string>, check: Check)
    requires |refs| == 1 && ResolveCheck(rules, catalog, refs[0], category, rowField, rowQuote) == Ok(check)
    ensures ResolveChecks(rules, catalog, refs, category, rowField, rowQuote) == Ok([check])
  {
    hide ResolveCheck, Collect;
    CollectOne(seq(|refs|, i requires 0 <= i < |refs| => ResolveCheck(rules, catalog, refs[i], category, rowField, rowQuote)), check);
  }

  lemma CheckResolves(catalog: map<SourceId, SourceSpan>, ref: RefCheck, category: Category, quote: string)
    requires ref.outcome == Supported && ProfileQuote(ref.field, ref.range, catalog) == Ok(Some(quote)) && quote != ""
    ensures ResolveCheck(LENIENT, catalog, ref, category, ref.field, Some(quote)) ==
      Ok(Check(ref.condition, Supported, ref.field, Some(quote), ref.reason))
  {
    hide ProfileQuote, Contains;
    SliceContained(quote, 0, |quote|);
    assert quote[0..|quote|] == quote;
  }

  lemma RowResolves(ref: RefRow, quote: string, check: Check)
    requires ref.outcome == Supported && ref.op == Atomic && |ref.checks| == 1 && ref.checks[0].outcome == Supported
    requires check.outcome == Supported
    ensures ResolvedRow(LENIENT, ref, "x", Some(quote), [check]) ==
      Row(ref.requirement, ref.category, Supported, "x", ref.field, Some(quote), ref.reason, [check], Some(Atomic))
  {
    hide SuffixReason, UnverifiedReason;
  }

  lemma BlankRowResolves(catalog: map<SourceId, SourceSpan>)
    requires IsCatalog(BLANK_PAYLOAD, catalog)
    requires ProfileQuote(Some(Education), Some(BLANK_RANGE), catalog) == Ok(Some(" "))
    requires Resolve(Some(JOB_RANGE), catalog, JobScope, "j", Some(Description)) == Ok(Some("x"))
    ensures ResolveRow(LENIENT, catalog, "j", BLANK_ROW).Ok?
    ensures Pipeline(LENIENT, BLANK_PAYLOAD, catalog, Job("j", "x"), BLANK_ROW).Err?
  {
    OneSpace();
    hide ProfileQuote, Resolve, IsCatalog, ValidateRow, ResolveRow, Strip;
    OneCheckResolves(catalog, BLANK_ROW, " ");
    ResolvedRejectedIff(LENIENT, BLANK_PAYLOAD, catalog, Job("j", "x"), BLANK_ROW);
  }

  lemma OneSpace()
    ensures Strip(" ") == ""
  {
    assert AllSpace(" ");
    hide Strip, IsSpace, AllSpace;
    var a, b := StripIsSlice(" ");
  }

  // ----- a requirement that does come out supported

  const PLAIN_PAYLOAD := Payload(Profile(None, Some("x"), [], None), [Job("j", "x")])
  const PLAIN_RANGE := Range(SourceId(ProfileScope, "profile", Experience, 0, 0, 1), SourceId(ProfileScope, "profile", Experience, 0, 0, 1))
  const PLAIN_ROW := RefRow("r", OtherRow, Supported, JOB_RANGE, Some(Experience), Some(PLAIN_RANGE), "why", Atomic,
                            [RefCheck("c", Supported, Some(Experience), Some(PLAIN_RANGE), "why")])
  const PLAIN_CHECK := Check("c", Supported, Some(Experience), Some("x"), "why")
  const PLAIN_RESULT := Row("r", OtherRow, Supported, "x", Some(Experience), Some("x"), "why", [PLAIN_CHECK], Some(Atomic))

  lemma PlainPayloadIssues(catalog: map<SourceId, SourceSpan>)
    requires IsCatalog(PLAIN_PAYLOAD, catalog)
    ensures PLAIN_RANGE.first in catalog && catalog[PLAIN_RANGE.first] == SourceSpan(PLAIN_RANGE.first, 0, "x")
    ensures JOB_RANGE.first in catalog && catalog[JOB_RANGE.first] == SourceSpan(JOB_RANGE.first, 0, "x")
  {
    var e := Entry(ProfileScope, "profile", Experience, 0, "x");
    OneSegment();
    ShortClear();
    hide Chunks.SegmentSpans, In;
    assert "x"[0..1] == "x";
    assert IssuedBy(e, SourceSpan(PLAIN_RANGE.first, 0, "x")) && IsEntry(PLAIN_PAYLOAD, e);
    JobIssues(PLAIN_PAYLOAD, catalog);
  }

  lemma PlainRowResolves(catalog: map<SourceId, SourceSpan>)
    requires ProfileQuote(Some(Experience), Some(PLAIN_RANGE), catalog) == Ok(Some("x"))
    requires Resolve(Some(JOB_RANGE), catalog, JobScope, "j", Some(Description)) == Ok(Some("x"))
    ensures ResolveRow(LENIENT, catalog, "j", PLAIN_ROW) == Ok(PLAIN_RESULT)
  {
    hide ProfileQuote, Resolve, ResolveRow;
    OneCheckResolves(catalog, PLAIN_ROW, "x");
  }

  lemma PlainTexts()
    ensures Strip("x") == "x" && Contains("x", "x") && !In(REDACTED, "x")
    ensures ContainedInSome("x", Originals(PLAIN_PAYLOAD.profile, Experience))
  {
    hide Contains, In, Strip;
    StripTrimmed("x");
    SliceContained("x", 0, 1);
    assert "x"[0..1] == "x";
    ShortClear();
    assert Originals(PLAIN_PAYLOAD.profile, Experience)[0] == "x";
  }

  lemma PlainCheckValidates()
    ensures ValidateCheck(LENIENT, PLAIN_PAYLOAD.profile, "x", PLAIN_RESULT, PLAIN_CHECK) == Ok(PLAIN_CHECK)
  {
    hide Strip, Contains, In, ContainedInSome;
    PlainTexts();
    var atom := Atom(PLAIN_RESULT, PLAIN_CHECK);
    assert Cleaned(atom) == atom;
    assert ValidateAtom(LENIENT, PLAIN_PAYLOAD.profile, "x", atom) == Ok(atom);
  }

  lemma PlainRowValidates()
    ensures ValidateRow(LENIENT, PLAIN_PAYLOAD.profile, "x", Cleaned(PLAIN_RESULT)) == Ok(PLAIN_RESULT)
  {
    hide Strip, Contains, In, ContainedInSome, ValidateCheck;
    PlainTexts();
    assert Cleaned(PLAIN_RESULT) == PLAIN_RESULT;
    assert Guarded(LENIENT, PLAIN_RESULT, false) == PLAIN_RESULT;
    PlainCheckValidates();
    CollectOne(CheckResults(LENIENT, PLAIN_PAYLOAD.profile, "x", PLAIN_RESULT), PLAIN_CHECK);
  }

  /** The four stages let an honestly supported requirement through unchanged. */
  lemma SupportedRowComesOut(catalog: map<SourceId, SourceSpan>)
    requires IsCatalog(PLAIN_PAYLOAD, catalog)
    ensures Pipeline(LENIENT, PLAIN_PAYLOAD, catalog, Job("j", "x"), PLAIN_ROW) == Ok(PLAIN_RESULT)
  {
    hide IsCatalog, ValidateRow, ResolveRow, In;
    PlainPayloadIssues(catalog);
    ShortClear();
    assert "x"[0..1] == "x";
    PlainRowResolves(catalog);
    PlainRowValidates();
    assert Prioritized(LENIENT, PLAIN_PAYLOAD.profile, PLAIN_RESULT, false, false) == PLAIN_RESULT;
  }
}
