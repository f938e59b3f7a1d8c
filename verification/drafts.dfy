/** Short drafts: which selected source excerpts survive the presentation budget, and how long
    the assembled draft can be. */
module Drafts {
  import opened Wrappers
  import opened Sequences

  datatype Kind = Intro | Experience | Motivation

  datatype Source = Source(id: string, isJob: bool, isExperience: bool, performed: bool, quote: string)

  datatype Draft = Draft(value: string, citations: seq<Source>)

  datatype DraftError =
    | InvalidSourceReference | NotExperience | MissingActivity | NeedsJobEvidence
    | JobIsNotApplicantEvidence | SourcesTooLong | DraftTooLong

  const BUDGET := 700
  const HARD_LIMIT := 900

  function Spaced(quotes: seq<string>): string {
    if quotes == [] then "" else if |quotes| == 1 then quotes[0] else quotes[0] + " " + Spaced(quotes[1..])
  }

  function QuotesOf(rows: seq<Source>): (r: seq<string>)
    ensures |r| == |rows| && forall i :: 0 <= i < |rows| ==> r[i] == rows[i].quote
  {
    seq(|rows|, i requires 0 <= i < |rows| => rows[i].quote)
  }

  function Total(rows: seq<Source>): nat {
    |Spaced(QuotesOf(rows))|
  }

  /** Length of the joined text: every quote plus one space between neighbours. */
  function Characters(rows: seq<Source>): nat {
    if rows == [] then 0 else |rows[0].quote| + Characters(rows[1..])
  }

  lemma {:induction false} TotalIsCharacters(rows: seq<Source>)
    ensures Total(rows) == Characters(rows) + if rows == [] then 0 else |rows| - 1
  {
    if |rows| > 1 {
      TotalIsCharacters(rows[1..]);
      assert QuotesOf(rows)[1..] == QuotesOf(rows[1..]);
    }
  }

  lemma {:induction false} CharactersAppend(rows: seq<Source>, more: seq<Source>)
    ensures Characters(rows + more) == Characters(rows) + Characters(more)
  {
    if rows == [] {
      assert rows + more == more;
    } else {
      assert (rows + more)[1..] == rows[1..] + more;
      CharactersAppend(rows[1..], more);
    }
  }

  // ----- the greedy selection

  /** Rows kept from `rest` when `selected` is already in: each row that still fits. */
  function Greedy(selected: seq<Source>, rest: seq<Source>): (kept: seq<Source>)
    ensures |kept| <= |rest|
    decreases rest
  {
    if rest == [] then []
    else if Total(selected + [rest[0]]) <= BUDGET then [rest[0]] + Greedy(selected + [rest[0]], rest[1..])
    else Greedy(selected, rest[1..])
  }

  /** The selection stays inside the budget it started in. */
  lemma {:induction false} GreedyInBudget(selected: seq<Source>, rest: seq<Source>)
    requires Total(selected) <= BUDGET
    ensures Total(selected + Greedy(selected, rest)) <= BUDGET
    decreases rest
  {
    if rest == [] {
      assert selected + [] == selected;
    } else if Total(selected + [rest[0]]) <= BUDGET {
      GreedyInBudget(selected + [rest[0]], rest[1..]);
      assert selected + ([rest[0]] + Greedy(selected + [rest[0]], rest[1..]))
          == (selected + [rest[0]]) + Greedy(selected + [rest[0]], rest[1..]);
    } else {
      GreedyInBudget(selected, rest[1..]);
    }
  }

  /** Kept rows are offered rows in their own order. */
  lemma {:induction false} GreedyIsPart(selected: seq<Source>, rest: seq<Source>)
    ensures PartOf(Greedy(selected, rest), rest)
    decreases rest
  {
    if rest != [] {
      if Total(selected + [rest[0]]) <= BUDGET {
        GreedyIsPart(selected + [rest[0]], rest[1..]);
      } else {
        GreedyIsPart(selected, rest[1..]);
      }
    }
  }

  /** Nothing is dropped needlessly: a row left out does not fit beside the final selection. */
  lemma {:induction false} DroppedDoesNotFit(selected: seq<Source>, rest: seq<Source>, row: Source)
    requires row in rest && row !in Greedy(selected, rest)
    ensures Total(selected + Greedy(selected, rest) + [row]) > BUDGET
    decreases rest
  {
    var kept := Greedy(selected, rest);
    if Total(selected + [rest[0]]) <= BUDGET {
      var more := Greedy(selected + [rest[0]], rest[1..]);
      assert kept == [rest[0]] + more;
      assert row in rest[1..] && row !in more;
      DroppedDoesNotFit(selected + [rest[0]], rest[1..], row);
      assert selected + kept == (selected + [rest[0]]) + more;
    } else if row == rest[0] {
      TotalIsCharacters(selected + [row]);
      TotalIsCharacters(selected + kept + [row]);
      CharactersAppend(selected, [row]);
      CharactersAppend(selected + kept, [row]);
      CharactersAppend(selected, kept);
    } else {
      assert row in rest[1..];
      DroppedDoesNotFit(selected, rest[1..], row);
    }
  }

  // ----- `_draft`

  /** No id is repeated: the set of the ids is as large as the list. */
  predicate Distinct(ids: seq<string>) {
    |set id | id in ids| == |ids|
  }

  predicate ValidReferences(ids: seq<string>, catalog: map<string, Source>, job: bool) {
    Distinct(ids) && forall i :: 0 <= i < |ids| ==> ids[i] in catalog && catalog[ids[i]].isJob == job
  }

  lemma {:induction false} DistinctIff(ids: seq<string>)
    ensures |set id | id in ids| <= |ids|
    ensures Distinct(ids) <==> forall i, j :: 0 <= i < j < |ids| ==> ids[i] != ids[j]
  {
    if ids != [] {
      var n := |ids| - 1;
      var all, before := set id | id in ids, set id | id in ids[..n];
      DistinctIff(ids[..n]);
      assert ids == ids[..n] + [ids[n]];
      assert all == before + {ids[n]};
      assert ids[n] in before <==> exists i :: 0 <= i < n && ids[i] == ids[n];
    }
  }

  function RowsOf(ids: seq<string>, catalog: map<string, Source>): (r: seq<Source>)
    requires forall i :: 0 <= i < |ids| ==> ids[i] in catalog
    ensures |r| == |ids| && forall i :: 0 <= i < |ids| ==> r[i] == catalog[ids[i]]
  {
    seq(|ids|, i requires 0 <= i < |ids| => catalog[ids[i]])
  }

  /** Why a plan is refused before the budget is looked at. */
  function PlanError(kind: Kind, profileIds: seq<string>, jobIds: seq<string>, catalog: map<string, Source>)
    : (e: Option<DraftError>)
  {
    if !ValidReferences(profileIds, catalog, false) || !ValidReferences(jobIds, catalog, true) then
      Some(InvalidSourceReference)
    else
      var profile := RowsOf(profileIds, catalog);
      if kind == Experience && exists i :: 0 <= i < |profile| && !profile[i].isExperience then Some(NotExperience)
      else if kind == Experience && forall i :: 0 <= i < |profile| ==> !profile[i].performed then Some(MissingActivity)
      else if kind == Motivation && jobIds == [] then Some(NeedsJobEvidence)
      else if kind != Motivation && jobIds != [] then Some(JobIsNotApplicantEvidence)
      else None
  }

  /** References that `_draft` accepts on one side: issued by that side, each at most once. */
  ghost predicate Issued(ids: seq<string>, catalog: map<string, Source>, job: bool) {
    && (forall i :: 0 <= i < |ids| ==> ids[i] in catalog && (catalog[ids[i]].isJob <==> job))
    && (forall i, j :: 0 <= i < j < |ids| ==> ids[i] != ids[j])
  }

  /** Which plans are refused, and why: the reasons, in the order in which one hides the next. */
  lemma PlanErrorIff(kind: Kind, profileIds: seq<string>, jobIds: seq<string>, catalog: map<string, Source>)
    ensures var e := PlanError(kind, profileIds, jobIds, catalog);
      if !(Issued(profileIds, catalog, false) && Issued(jobIds, catalog, true)) then e == Some(InvalidSourceReference)
      else match kind
        case Experience =>
          if exists id :: id in profileIds && !catalog[id].isExperience then e == Some(NotExperience)
          else if !exists id :: id in profileIds && catalog[id].performed then e == Some(MissingActivity)
          else if |jobIds| > 0 then e == Some(JobIsNotApplicantEvidence)
          else e == None
        case Motivation => e == if |jobIds| > 0 then None else Some(NeedsJobEvidence)
        case Intro => e == if |jobIds| > 0 then Some(JobIsNotApplicantEvidence) else None
  {
    DistinctIff(profileIds);
    DistinctIff(jobIds);
    if ValidReferences(profileIds, catalog, false) && kind == Experience {
      var profile := RowsOf(profileIds, catalog);
      forall i | 0 <= i < |profileIds|
        ensures profile[i] == catalog[profileIds[i]] && profileIds[i] in profileIds
      {
      }
    }
  }

  /** What the budget keeps: the first applicant row and first job row always, then every
      later applicant row and job row that still fits. */
  function Selection(profile: seq<Source>, jobs: seq<Source>): (r: (seq<Source>, seq<Source>))
    requires profile != []
  {
    var first := [profile[0]] + jobs[..if jobs == [] then 0 else 1];
    var moreProfile := Greedy(first, profile[1..]);
    var moreJobs := if jobs == [] then [] else Greedy(first + moreProfile, jobs[1..]);
    ([profile[0]] + moreProfile, jobs[..if jobs == [] then 0 else 1] + moreJobs)
  }

  function Prefix(kind: Kind): string {
    match kind
    case Intro => "Background: "
    case Experience => "Relevant experience / project work: "
    case Motivation => "Role: "
  }

  const BRIDGE := " My background: "

  function Assemble(kind: Kind, profile: seq<Source>, jobs: seq<Source>): string {
    if kind == Motivation then Prefix(kind) + Spaced(QuotesOf(jobs)) + BRIDGE + Spaced(QuotesOf(profile))
    else Prefix(kind) + Spaced(QuotesOf(profile))
  }

  /** Where the k-th excerpt starts when excerpts are joined by single spaces. */
  function Offset(rows: seq<Source>, k: nat): nat
    requires k <= |rows|
  {
    if k == 0 then 0 else Offset(rows, k - 1) + |rows[k - 1].quote| + 1
  }

  /** The text holds the excerpts word for word, in order, with single spaces between them and nothing
      else. */
  ghost predicate Holds(text: string, rows: seq<Source>) {
    && |text| == (if rows == [] then 0 else Offset(rows, |rows|) - 1)
    && (forall k :: 0 <= k < |rows| ==> HoldsAt(text, rows, k))
  }

  predicate HoldsAt(text: string, rows: seq<Source>, k: nat)
    requires k < |rows|
  {
    var lo := Offset(rows, k); var hi := lo + |rows[k].quote|;
    hi <= |text| && text[lo..hi] == rows[k].quote && (k + 1 < |rows| ==> hi < |text| && text[hi] == ' ')
  }

  lemma {:induction false} OffsetTail(rows: seq<Source>, k: nat)
    requires 0 < k <= |rows|
    ensures Offset(rows, k) == |rows[0].quote| + 1 + Offset(rows[1..], k - 1)
  {
    if k > 1 {
      OffsetTail(rows, k - 1);
    }
  }

  lemma {:induction false} SpacedHolds(rows: seq<Source>)
    ensures Holds(Spaced(QuotesOf(rows)), rows)
  {
    if |rows| == 1 {
      assert Offset(rows, 1) == |rows[0].quote| + 1;
      assert HoldsAt(rows[0].quote, rows, 0);
    } else if rows != [] {
      var first, rest := rows[0].quote, rows[1..];
      SpacedHolds(rest);
      assert QuotesOf(rows)[1..] == QuotesOf(rest);
      var tail, text := Spaced(QuotesOf(rest)), Spaced(QuotesOf(rows));
      assert text == first + " " + tail;
      OffsetTail(rows, |rows|);
      forall k | 0 <= k < |rows|
        ensures HoldsAt(text, rows, k)
      {
        if k > 0 {
          OffsetTail(rows, k);
          HoldsLater(first, tail, rows, k);
        } else {
          assert text[..|first|] == first && text[|first|] == ' ';
        }
      }
    }
  }

  lemma HoldsLater(first: string, tail: string, rows: seq<Source>, k: nat)
    requires 0 < k < |rows| && first == rows[0].quote && HoldsAt(tail, rows[1..], k - 1)
    requires Offset(rows, k) == |first| + 1 + Offset(rows[1..], k - 1)
    ensures HoldsAt(first + " " + tail, rows, k)
  {
    var text, lo := first + " " + tail, Offset(rows[1..], k - 1);
    var hi := lo + |rows[k].quote|;
    assert rows[1..][k - 1] == rows[k];
    assert text[|first| + 1..] == tail;
    assert text[|first| + 1 + lo..|first| + 1 + hi] == tail[lo..hi];
    assert hi < |tail| ==> text[|first| + 1 + hi] == tail[hi];
  }

  /** What a draft says: for a motivation, the job excerpts as the role and then the applicant's
      excerpts as the background; otherwise the applicant's excerpts under their own heading. */
  lemma AssembledText(kind: Kind, profile: seq<Source>, jobs: seq<Source>) returns (role: string, background: string)
    ensures Holds(role, jobs) && Holds(background, profile)
    ensures Assemble(kind, profile, jobs) ==
      match kind
      case Motivation => "Role: " + role + " My background: " + background
      case Intro => "Background: " + background
      case Experience => "Relevant experience / project work: " + background
  {
    role, background := Spaced(QuotesOf(jobs)), Spaced(QuotesOf(profile));
    SpacedHolds(jobs);
    SpacedHolds(profile);
  }

  /** The budget covers both kept lists together. */
  lemma SelectionInBudget(profile: seq<Source>, jobs: seq<Source>)
    requires profile != []
    requires Total([profile[0]] + jobs[..if jobs == [] then 0 else 1]) <= BUDGET
    ensures var (p, j) := Selection(profile, jobs);
      Characters(p) + Characters(j) + |p| + |j| - 1 <= BUDGET && p != [] && (jobs != [] ==> j != [])
  {
    var (p, j) := Selection(profile, jobs);
    var first := [profile[0]] + jobs[..if jobs == [] then 0 else 1];
    var moreProfile := p[1..];
    GreedyInBudget(first, profile[1..]);
    var all := first + moreProfile;
    if jobs != [] {
      GreedyInBudget(all, jobs[1..]);
      all := all + j[1..];
      CharactersAppend(first + moreProfile, j[1..]);
      CharactersAppend(j[..1], j[1..]);
      assert j == j[..1] + j[1..];
    }
    TotalIsCharacters(all);
    CharactersAppend(first, moreProfile);
    CharactersAppend([profile[0]], jobs[..if jobs == [] then 0 else 1]);
    CharactersAppend([profile[0]], moreProfile);
  }

  /** The final text is at most 736 characters, whatever was selected. */
  lemma AssembledLength(kind: Kind, profile: seq<Source>, jobs: seq<Source>)
    requires profile != [] && (kind == Motivation <==> jobs != [])
    requires Total([profile[0]] + jobs[..if jobs == [] then 0 else 1]) <= BUDGET
    ensures var (p, j) := Selection(profile, jobs); |Assemble(kind, p, j)| <= 736
  {
    var (p, j) := Selection(profile, jobs);
    SelectionInBudget(profile, jobs);
    TotalIsCharacters(p);
    TotalIsCharacters(j);
  }

  /** The optional rows, in the order the source offers them. */
  method KeepWhatFits(selected0: seq<Source>, rest: seq<Source>)
    returns (kept: seq<Source>, selected: seq<Source>)
    ensures kept == Greedy(selected0, rest) && selected == selected0 + kept
  {
    kept, selected := [], selected0;
    var i := 0;
    while i < |rest|
      invariant 0 <= i <= |rest| && selected == selected0 + kept
      invariant kept + Greedy(selected, rest[i..]) == Greedy(selected0, rest)
    {
      var row := rest[i];
      assert rest[i..][0] == row && rest[i..][1..] == rest[i + 1..];
      if |Spaced(QuotesOf(selected + [row]))| <= BUDGET {
        assert kept + ([row] + Greedy(selected + [row], rest[i + 1..]))
            == (kept + [row]) + Greedy(selected + [row], rest[i + 1..]);
        kept, selected := kept + [row], selected + [row];
      }
      i := i + 1;
    }
  }

  /** `_draft`: refuses a bad plan, else assembles exactly the kept excerpts. The last error
      branch of the source, a text over 900 characters, is never taken. */
  method MakeDraft(kind: Kind, profileIds: seq<string>, jobIds: seq<string>, catalog: map<string, Source>)
    returns (r: Result<Draft, DraftError>)
    requires profileIds != []
    ensures PlanError(kind, profileIds, jobIds, catalog).Some? ==>
      r == Err(PlanError(kind, profileIds, jobIds, catalog).value)
    ensures PlanError(kind, profileIds, jobIds, catalog).None? ==>
      var profile, jobs := RowsOf(profileIds, catalog), RowsOf(jobIds, catalog);
      var (p, j) := Selection(profile, jobs);
      if Total([profile[0]] + jobs[..if jobs == [] then 0 else 1]) > BUDGET then r == Err(SourcesTooLong)
      else r == Ok(Draft(Assemble(kind, p, j), p + j)) && |r.value.value| <= 736
    ensures r != Err(DraftTooLong)
  {
    var error := PlanError(kind, profileIds, jobIds, catalog);
    if error.Some? {
      return Err(error.value);
    }
    var profile, jobs := RowsOf(profileIds, catalog), RowsOf(jobIds, catalog);
    var firstJob := jobs[..if jobs == [] then 0 else 1];
    var selected := [profile[0]] + firstJob;
    if |Spaced(QuotesOf(selected))| > BUDGET {
      return Err(SourcesTooLong);
    }
    var moreProfile, moreJobs;
    moreProfile, selected := KeepWhatFits(selected, profile[1..]);
    moreJobs, selected := KeepWhatFits(selected, if jobs == [] then [] else jobs[1..]);
    var p, j := [profile[0]] + moreProfile, firstJob + moreJobs;
    var value := Assemble(kind, p, j);
    AssembledLength(kind, profile, jobs);
    if |value| > HARD_LIMIT {
      r := Err(DraftTooLong);
    } else {
      r := Ok(Draft(value, p + j));
    }
  }

  /** Every citation of a draft is an issued source, the first applicant excerpt is kept, and
      for a motivation the first job excerpt is kept too. */
  lemma SelectionIsIssued(profile: seq<Source>, jobs: seq<Source>)
    requires profile != []
    ensures var (p, j) := Selection(profile, jobs);
      && p[0] == profile[0] && PartOf(p[1..], profile[1..])
      && (jobs == [] ==> j == [])
      && (jobs != [] ==> j[0] == jobs[0] && PartOf(j[1..], jobs[1..]))
      && (forall row :: row in p ==> row in profile) && (forall row :: row in j ==> row in jobs)
  {
    var (p, j) := Selection(profile, jobs);
    var first := [profile[0]] + jobs[..if jobs == [] then 0 else 1];
    GreedyIsPart(first, profile[1..]);
    PartOfMembers(p[1..], profile[1..]);
    if jobs != [] {
      GreedyIsPart(first + p[1..], jobs[1..]);
      PartOfMembers(j[1..], jobs[1..]);
    }
  }
}
