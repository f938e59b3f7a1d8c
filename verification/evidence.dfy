/** The evidence pipeline for one assessed requirement: the model's references are resolved,
    the row and its atomic conditions are validated, the row is prioritized, and unproven gaps
    are corrected. Each stage may rewrite the row's outcome. */
module Evidence {
  import opened Text
  import opened Wrappers
  import opened Citations

  datatype Outcome = Supported | Gap | Unknown

  datatype Category = SkillRow | ResponsibilityRow | EducationRow | ExperienceRow | ConstraintRow | OtherRow

  datatype Operator = Atomic | AllOf | AnyOf | Unspecified

  datatype Check = Check(condition: string, outcome: Outcome, field: Option<Field>, quote: Option<string>, reason: string)

  datatype Row = Row(
    requirement: string, category: Category, outcome: Outcome, jdQuote: string,
    field: Option<Field>, quote: Option<string>, reason: string,
    checks: seq<Check>, op: Option<Operator>)

  /** What the model returns: outcomes with source ranges instead of quotations. */
  datatype RefCheck = RefCheck(condition: string, outcome: Outcome, field: Option<Field>, range: Option<Range>, reason: string)

  datatype RefRow = RefRow(
    requirement: string, category: Category, outcome: Outcome, jdRange: Range,
    field: Option<Field>, range: Option<Range>, reason: string,
    op: Operator, checks: seq<RefCheck>)

  /** The fixed sentences the server puts into reasons. */
  datatype Note =
    | ConditionNotShown | ConditionsNotCovered | AvailabilityUnproven | YearsUnproven | DegreeUnproven
    | AtomsInsufficient | OnlyOnePart | DistillationBranch | ZeroYearRoute

  /** The text heuristics (regular expressions and vocabularies), left uninterpreted. */
  datatype Rules = Rules(
    negative: string -> bool,
    activityIssue: (string, Category, Option<Field>, Option<string>) -> Option<string>,
    compoundScope: (string, Operator, Category) -> Option<string>,
    subjectIssue: (string, Category, Option<string>) -> Option<string>,
    reasonTail: (Category, string, Option<Field>, Option<string>) -> string,
    availabilityUnproven: (Option<Field>, string, string) -> bool,
    yearsUnproven: (string, string) -> bool,
    degreeUnproven: (string, string) -> bool,
    compoundUnmet: (string, string) -> bool,
    promotable: (string, string) -> bool,
    construction: (string, string, string) -> Option<string>,
    zeroRoute: string -> bool,
    timing: (Category, string, string) -> Option<(string, bool)>,
    note: Note -> string)

  const CORRECTION_PREFIX := "Server evidence correction: a gap was not established by explicit contradictory profile evidence."
  const LEGACY_GAP_MARKER := "No explicit contradictory profile evidence; missing information remains unknown."

  // ----- small text helpers

  function TextOf(quote: Option<string>): string {
    if quote.Some? then quote.value else ""
  }

  /** Python's `s[:n]`, negative `n` included. */
  function Cut(s: string, n: int): string {
    if n >= |s| then s else if n >= 0 then s[..n] else if |s| + n > 0 then s[..|s| + n] else ""
  }

  /** `_append_reason`. */
  function AppendReason(reason: string, note: string): string {
    StripRight(Cut(reason, 1999 - |note|)) + " " + note
  }

  /** The suffix form used while resolving. */
  function SuffixReason(reason: string, note: string): string {
    Cut(reason, 2000 - |note|) + note
  }

  function UnverifiedReason(rules: Rules, row: Row): string {
    CORRECTION_PREFIX + rules.reasonTail(row.category, row.requirement, row.field, row.quote)
  }

  // ----- stage 1: resolve

  function Displayed(field: Option<Field>, quote: Option<string>, rowField: Option<Field>, rowQuote: Option<string>): bool {
    quote.Some? && rowQuote.Some? && field == rowField && Contains(quote.value, rowQuote.value)
  }

  /** A claimed gap that no negative statement in its own citation proves. */
  predicate UnprovenGap(rules: Rules, outcome: Outcome, proof: Option<string>) {
    outcome == Gap && !(TextOf(proof) != "" && rules.negative(TextOf(proof)))
  }

  function ResolveCheck(rules: Rules, catalog: map<SourceId, SourceSpan>, ref: RefCheck, category: Category, rowField: Option<Field>, rowQuote: Option<string>)
    : Result<Check, EvidenceError>
  {
    match ProfileQuote(ref.field, ref.range, catalog)
    case Err(e) => Err(e)
    case Ok(proof) =>
      if ref.outcome == Supported && TextOf(proof) == "" then Err(InvalidEvidence)
      else
        var keep := Displayed(ref.field, proof, rowField, rowQuote)
          && rules.activityIssue(ref.condition, category, ref.field, proof).None?
          && !UnprovenGap(rules, ref.outcome, proof);
        var outcome := if keep then ref.outcome else Unknown;
        var reason := if outcome == ref.outcome then ref.reason else rules.note(ConditionNotShown);
        Ok(Check(ref.condition, outcome, ref.field, proof, reason))
  }

  /** A loop that stops at the first error, else keeps every value in order. */
  function Collect(results: seq<Result<Check, EvidenceError>>): (r: Result<seq<Check>, EvidenceError>)
    ensures r.Ok? ==> |r.value| == |results| && forall i :: 0 <= i < |results| ==> results[i] == Ok(r.value[i])
    ensures r.Err? ==> exists i :: 0 <= i < |results| && results[i].Err?
  {
    if results == [] then Ok([])
    else
      var init := Collect(results[..|results| - 1]);
      match results[|results| - 1]
      case Err(e) => if init.Err? then init else Err(e)
      case Ok(check) => if init.Err? then init else Ok(init.value + [check])
  }

  function ResolveChecks(rules: Rules, catalog: map<SourceId, SourceSpan>, refs: seq<RefCheck>, category: Category, rowField: Option<Field>, rowQuote: Option<string>)
    : Result<seq<Check>, EvidenceError>
  {
    Collect(seq(|refs|, i requires 0 <= i < |refs| => ResolveCheck(rules, catalog, refs[i], category, rowField, rowQuote)))
  }

  predicate AllAre(checks: seq<Check>, outcome: Outcome) {
    forall i :: 0 <= i < |checks| ==> checks[i].outcome == outcome
  }

  predicate SomeIs(checks: seq<Check>, outcome: Outcome) {
    exists i :: 0 <= i < |checks| && checks[i].outcome == outcome
  }

  /** What the conditions together establish under the operator. */
  function Aggregate(op: Operator, checks: seq<Check>): Outcome {
    match op
    case Unspecified => Unknown
    case AnyOf => if SomeIs(checks, Supported) then Supported else if AllAre(checks, Gap) then Gap else Unknown
    case _ => if AllAre(checks, Supported) then Supported else if SomeIs(checks, Gap) then Gap else Unknown
  }

  /** The row-level part of `resolve_assessment`, after both quotes and all conditions resolved. */
  function ResolvedRow(rules: Rules, ref: RefRow, jdQuote: string, quote: Option<string>, checks: seq<Check>): Row {
    var row := Row(ref.requirement, ref.category, ref.outcome, jdQuote, ref.field, quote, ref.reason, checks, Some(ref.op));
    var unproven := exists i :: 0 <= i < |ref.checks| && i < |checks| && UnprovenGap(rules, ref.checks[i].outcome, checks[i].quote);
    var row := if unproven && row.outcome != Supported then row.(outcome := Unknown, reason := UnverifiedReason(rules, row)) else row;
    var scope := rules.compoundScope(ref.requirement, ref.op, ref.category);
    var activity := rules.activityIssue(ref.requirement, ref.category, ref.field, quote);
    var row :=
      if row.outcome == Supported && (scope.Some? || activity.Some?) then
        row.(outcome := Unknown, reason := SuffixReason(row.reason, " " + if scope.Some? then scope.value else activity.value))
      else row;
    if row.outcome != Unknown && Aggregate(ref.op, checks) != row.outcome then
      row.(outcome := Unknown, reason := SuffixReason(row.reason, rules.note(ConditionsNotCovered)))
    else row
  }

  function ResolveRow(rules: Rules, catalog: map<SourceId, SourceSpan>, owner: string, ref: RefRow): Result<Row, EvidenceError> {
    match Resolve(Some(ref.jdRange), catalog, JobScope, owner, Some(Description))
    case Err(e) => Err(e)
    case Ok(jdQuote) =>
      match ProfileQuote(ref.field, ref.range, catalog)
      case Err(e) => Err(e)
      case Ok(quote) =>
        match ResolveChecks(rules, catalog, ref.checks, ref.category, ref.field, quote)
        case Err(e) => Err(e)
        case Ok(checks) => Ok(ResolvedRow(rules, ref, TextOf(jdQuote), quote, checks))
  }

  // ----- stage 2: validate

  function StripQuote(quote: Option<string>): Option<string> {
    if quote.Some? then Some(Strip(quote.value)) else None
  }

  /** Model validation strips every string; only quotes matter to later stages. */
  function Cleaned(row: Row): Row {
    row.(jdQuote := Strip(row.jdQuote), quote := StripQuote(row.quote),
         checks := seq(|row.checks|, i requires 0 <= i < |row.checks| => row.checks[i].(quote := StripQuote(row.checks[i].quote))))
  }

  predicate ContainedInSome(quote: string, originals: seq<string>) {
    exists i :: 0 <= i < |originals| && Contains(quote, originals[i])
  }

  /** The three rejections that make a whole batch invalid. */
  predicate Rejected(profile: Profile, source: string, row: Row) {
    || !Contains(row.jdQuote, source)
    || (TextOf(row.quote) != "" &&
        !ContainedInSome(TextOf(row.quote), if row.field.Some? then Originals(profile, row.field.value) else []))
    || (row.outcome == Supported && (TextOf(row.quote) == "" || row.field.None? || In(REDACTED, TextOf(row.quote))))
  }

  function LowerSubject(rules: Rules, row: Row, atomic: bool): Row {
    if atomic && row.outcome == Supported then
      var issue := rules.subjectIssue(row.requirement, row.category, row.quote);
      if issue.Some? then row.(outcome := Unknown, reason := issue.value) else row
    else row
  }

  function LowerGap(rules: Rules, row: Row): Row {
    if row.outcome == Gap && (TextOf(row.quote) == "" || !rules.negative(TextOf(row.quote))) then
      row.(outcome := Unknown, reason := UnverifiedReason(rules, row))
    else row
  }

  /** The text a category guard reads: an atomic condition's own words, else the cited passage. */
  function ConditionText(row: Row, atomic: bool): string {
    if atomic then row.requirement else row.jdQuote
  }

  /** The category guards for availability, years of experience and degrees. */
  function LowerCategory(rules: Rules, row: Row, atomic: bool): Row {
    if row.outcome != Supported then row
    else match row.category
         case ConstraintRow =>
           if rules.availabilityUnproven(row.field, TextOf(row.quote), ConditionText(row, atomic))
           then row.(outcome := Unknown, reason := AppendReason(row.reason, rules.note(AvailabilityUnproven))) else row
         case ExperienceRow =>
           if rules.yearsUnproven(row.requirement, TextOf(row.quote))
           then row.(outcome := Unknown, reason := AppendReason(row.reason, rules.note(YearsUnproven))) else row
         case EducationRow =>
           if rules.degreeUnproven(ConditionText(row, atomic), TextOf(row.quote))
           then row.(outcome := Unknown, reason := AppendReason(row.reason, rules.note(DegreeUnproven))) else row
         case _ => row
  }

  function Guarded(rules: Rules, row: Row, atomic: bool): Row {
    LowerCategory(rules, LowerGap(rules, LowerSubject(rules, row, atomic)), atomic)
  }

  /** The one-row batch a single condition is validated as. */
  function Atom(row: Row, check: Check): Row {
    Row(check.condition, row.category, check.outcome, row.jdQuote, check.field, check.quote, check.reason, [], None)
  }

  /** The recursive call: one condition through the same guards, prioritizing and correction. */
  function ValidateAtom(rules: Rules, profile: Profile, source: string, atom: Row): Result<Row, EvidenceError> {
    if Rejected(profile, source, atom) then Err(InvalidEvidence)
    else Ok(Corrected(rules, Prioritized(rules, profile, Guarded(rules, atom, true), true, false)))
  }

  function ValidateCheck(rules: Rules, profile: Profile, source: string, row: Row, check: Check): Result<Check, EvidenceError> {
    match ValidateAtom(rules, profile, source, Cleaned(Atom(row, check)))
    case Err(e) => Err(e)
    case Ok(child) =>
      var shown := child.field == row.field && TextOf(child.quote) != "" && TextOf(row.quote) != ""
        && Contains(TextOf(child.quote), TextOf(row.quote));
      Ok(check.(outcome := if shown then child.outcome else Unknown, reason := Cut(child.reason, 1000)))
  }

  function CheckResults(rules: Rules, profile: Profile, source: string, row: Row): seq<Result<Check, EvidenceError>> {
    seq(|row.checks|, i requires 0 <= i < |row.checks| => ValidateCheck(rules, profile, source, row, row.checks[i]))
  }

  function ValidateChecks(rules: Rules, profile: Profile, source: string, row: Row): Result<seq<Check>, EvidenceError> {
    Collect(CheckResults(rules, profile, source, row))
  }

  predicate Sufficient(op: Operator, checks: seq<Check>) {
    match op
    case Unspecified => false
    case AnyOf => SomeIs(checks, Supported)
    case _ => AllAre(checks, Supported)
  }

  function ApplyOperator(rules: Rules, row: Row): Row {
    if row.outcome == Supported && row.checks != [] && row.op.Some? && !Sufficient(row.op.value, row.checks) then
      row.(outcome := Unknown, reason := AppendReason(row.reason, rules.note(AtomsInsufficient)))
    else row
  }

  /** `validate_assessment` on one row, conditions included. */
  function ValidateRow(rules: Rules, profile: Profile, source: string, row: Row): Result<Row, EvidenceError> {
    if Rejected(profile, source, row) then Err(InvalidEvidence)
    else
      var guarded := Guarded(rules, row, false);
      match ValidateChecks(rules, profile, source, guarded)
      case Err(e) => Err(e)
      case Ok(checks) => Ok(ApplyOperator(rules, guarded.(checks := checks)))
  }

  // ----- stage 3: prioritize

  function CompoundEvidence(rules: Rules, row: Row, jd: string, promotions: bool): Row {
    if row.category != SkillRow then row
    else
      var lowered :=
        if row.outcome == Supported && rules.compoundUnmet(jd, TextOf(row.quote))
        then row.(outcome := Unknown, reason := rules.note(OnlyOnePart)) else row;
      if promotions && lowered.outcome == Unknown && lowered.field == Some(Experience) && rules.promotable(jd, TextOf(row.quote))
      then lowered.(outcome := Supported, reason := rules.note(DistillationBranch)) else lowered
  }

  function ConstructionEvidence(rules: Rules, row: Row, jd: string): Row {
    if row.outcome != Supported then row
    else
      var issue := rules.construction(row.requirement, jd, TextOf(row.quote));
      if issue.Some? then row.(outcome := Unknown, reason := issue.value) else row
  }

  function ActivityEvidence(rules: Rules, row: Row): Row {
    var issue := rules.activityIssue(row.requirement, row.category, row.field, row.quote);
    if row.outcome == Supported && issue.Some? then row.(outcome := Unknown, reason := issue.value) else row
  }

  /** The row part of `prioritize_assessment`. */
  function Prioritized(rules: Rules, profile: Profile, row: Row, atomic: bool, promotions: bool): Row {
    var jd := ConditionText(row, atomic);
    var row := CompoundEvidence(rules, row, jd, promotions);
    var row := ConstructionEvidence(rules, row, jd);
    var row := ActivityEvidence(rules, row);
    var row := if row.category == ExperienceRow && rules.zeroRoute(row.requirement) then row.(reason := rules.note(ZeroYearRoute)) else row;
    var timing := rules.timing(row.category, jd, TextOf(profile.education));
    if timing.Some? then
      row.(outcome := if timing.value.1 then Gap else Unknown, field := Some(Education), quote := profile.education, reason := timing.value.0)
    else row
  }

  // ----- stage 4: correct

  predicate Marked(reason: string) {
    In(LEGACY_GAP_MARKER, reason) || CORRECTION_PREFIX <= reason
  }

  /** The row part of `correct_unverified_gaps`: only a marked unknown row is re-explained. */
  function Corrected(rules: Rules, row: Row): Row {
    if row.outcome == Unknown && Marked(row.reason) then row.(reason := UnverifiedReason(rules, row)) else row
  }

  /** All four stages, with promotions off as the paid batch runs them. */
  function Pipeline(rules: Rules, payload: Payload, catalog: map<SourceId, SourceSpan>, job: Job, ref: RefRow): Result<Row, EvidenceError> {
    match ResolveRow(rules, catalog, job.id, ref)
    case Err(e) => Err(e)
    case Ok(resolved) =>
      match ValidateRow(rules, payload.profile, job.description, Cleaned(resolved))
      case Err(e) => Err(e)
      case Ok(valid) => Ok(Corrected(rules, Prioritized(rules, payload.profile, valid, false, false)))
  }
}
